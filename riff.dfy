/** The RIFF container scanner: the 12-byte header and the walk over chunk
    sub-headers (RiffReader in src/waveio.py). */
module Riff {
  import opened Results
  import opened LittleEndian

  const RiffTag: seq<byte> := [0x52, 0x49, 0x46, 0x46]   // "RIFF"
  const WaveTag: seq<byte> := [0x57, 0x41, 0x56, 0x45]   // "WAVE"
  const FmtTag: seq<byte> := [0x66, 0x6d, 0x74, 0x20]    // "fmt "
  const FactTag: seq<byte> := [0x66, 0x61, 0x63, 0x74]   // "fact"
  const DataTag: seq<byte> := [0x64, 0x61, 0x74, 0x61]   // "data"

  /** One chunklist entry: the tag, where the payload starts, and the
      payload length as declared (without the pad byte). */
  datatype ChunkEntry = ChunkEntry(id: seq<byte>, posn: nat, len: nat)

  /** What a successful scan leaves behind: RIFFtype, file_length and chunklist. */
  datatype RiffIndex = RiffIndex(formType: seq<byte>, fileLength: nat, chunks: seq<ChunkEntry>)

  /** (len + 1) & ~1: the chunk length rounded up to even. */
  function Padded(len: nat): (r: nat)
    ensures r % 2 == 0 && len <= r <= len + 1
  {
    (len + 1) / 2 * 2
  }

  function Prepend(c: ChunkEntry, r: Result<seq<ChunkEntry>>): Result<seq<ChunkEntry>>
  {
    match r
    case Ok(cs) => Ok([c] + cs)
    case Err(e) => Err(e)
  }

  /** The chunk loop from the state (pos, nextpos): pos is where the stream
      stands, nextpos where the next sub-header starts; the walk stops as soon
      as nextpos reaches the bound `end` (the declared RIFF length). */
  function Walk(file: seq<byte>, pos: nat, nextpos: nat, end: nat): Result<seq<ChunkEntry>>
    decreases end - nextpos
  {
    if nextpos >= end then Ok([])
    else if nextpos != pos && nextpos < pos then Err(BadChunkLength)
    else if nextpos + 8 > |file| then Err(StructError)
    else
      var p := nextpos + 8;
      var len := U32At(file, nextpos + 4);
      Prepend(ChunkEntry(file[nextpos..nextpos + 4], p, len), Walk(file, p, p + Padded(len), end))
  }

  /** RiffReader.__init__ on the whole file, with expected_RIFFtype. */
  function ScanSpec(file: seq<byte>, expected: Option<seq<byte>>): Result<RiffIndex>
  {
    if |file| < 12 then Err(StructError)
    else if expected.Some? && expected.value != file[8..12] then Err(WrongRiffType)
    else if file[..4] != RiffTag then Err(NotRiff)
    else
      var length := U32At(file, 4);
      match Walk(file, 12, 12, length)
      case Ok(cs) => Ok(RiffIndex(file[8..12], length, cs))
      case Err(e) => Err(e)
  }

  /** RiffReader.__init__: reads the header, then walks the sub-headers,
      seeking only when the next position differs from the current one. */
  method Scan(file: seq<byte>, expected: Option<seq<byte>>) returns (r: Result<RiffIndex>)
    ensures r == ScanSpec(file, expected)
  {
    if |file| < 12 {
      return Err(StructError);
    }
    var s1, length, s2 := file[..4], U32At(file, 4), file[8..12];
    if expected.Some? && expected.value != s2 {
      return Err(WrongRiffType);
    }
    if s1 != RiffTag {
      return Err(NotRiff);
    }
    var chunklist: seq<ChunkEntry> := [];
    var pos, nextpos := 12, 12;
    assert Prepends([], Walk(file, pos, nextpos, length)) == Walk(file, pos, nextpos, length) by {
      var w := Walk(file, pos, nextpos, length);
      if w.Ok? { assert [] + w.value == w.value; }
    }
    while nextpos < length
      invariant Walk(file, 12, 12, length) == Prepends(chunklist, Walk(file, pos, nextpos, length))
      decreases length - nextpos
    {
      if nextpos != pos {
        if nextpos < pos {
          return Err(BadChunkLength);
        }
        pos := nextpos;
      }
      if pos + 8 > |file| {
        return Err(StructError);
      }
      var chktype, chklen := file[pos..pos + 4], U32At(file, pos + 4);
      pos := pos + 8;
      nextpos := pos + Padded(chklen);
      PrependsSnoc(chunklist, ChunkEntry(chktype, pos, chklen), Walk(file, pos, nextpos, length));
      chunklist := chunklist + [ChunkEntry(chktype, pos, chklen)];
    }
    assert chunklist + [] == chunklist;
    r := Ok(RiffIndex(s2, length, chunklist));
  }

  function Prepends(prefix: seq<ChunkEntry>, r: Result<seq<ChunkEntry>>): Result<seq<ChunkEntry>>
  {
    match r
    case Ok(cs) => Ok(prefix + cs)
    case Err(e) => Err(e)
  }

  lemma PrependsSnoc(prefix: seq<ChunkEntry>, c: ChunkEntry, r: Result<seq<ChunkEntry>>)
    ensures Prepends(prefix, Prepend(c, r)) == Prepends(prefix + [c], r)
  {
    if r.Ok? {
      assert prefix + ([c] + r.value) == (prefix + [c]) + r.value;
    }
  }

  // ---------------------------------------------------------------------------
  // What a scan establishes

  /** The 12-byte header checks, in the order the code makes them: a short
      header fails to unpack, the form type is compared before the magic. */
  lemma ScanHeaderChecks(file: seq<byte>, expected: Option<seq<byte>>)
    ensures |file| < 12 ==> ScanSpec(file, expected) == Err(StructError)
    ensures |file| >= 12 && expected.Some? && expected.value != file[8..12] ==>
      ScanSpec(file, expected) == Err(WrongRiffType)
    ensures |file| >= 12 && (expected.None? || expected.value == file[8..12]) && file[..4] != RiffTag ==>
      ScanSpec(file, expected) == Err(NotRiff)
    ensures ScanSpec(file, expected).Ok? ==>
      |file| >= 12 && file[..4] == RiffTag && (expected.Some? ==> expected.value == file[8..12]) &&
      ScanSpec(file, expected).value.formType == file[8..12] &&
      ScanSpec(file, expected).value.fileLength == U32At(file, 4)
  {
  }

  /** The sub-header of chunk c sits in the 8 bytes before its payload. */
  ghost predicate HeaderAt(file: seq<byte>, c: ChunkEntry)
  {
    8 <= c.posn <= |file| && c.id == file[c.posn - 8..c.posn - 4] && c.len == U32At(file, c.posn - 4)
  }

  /** cs is the chunk list of a walk whose first sub-header is at `at` and
      which stops at `end`: every entry's sub-header is in the file and starts
      before `end`, each next sub-header starts where the previous padded
      payload ends, and the last padded payload reaches `end`. */
  ghost predicate FramedFrom(file: seq<byte>, at: nat, end: nat, cs: seq<ChunkEntry>)
  {
    && (|cs| == 0 ==> end <= at)
    && (|cs| > 0 ==> cs[0].posn == at + 8 && cs[|cs| - 1].posn + Padded(cs[|cs| - 1].len) >= end)
    && (forall k :: 0 <= k < |cs| ==> HeaderAt(file, cs[k]) && cs[k].posn - 8 < end)
    && (forall k :: 0 <= k < |cs| - 1 ==> cs[k + 1].posn == cs[k].posn + Padded(cs[k].len) + 8)
  }

  /** Without a backward step the walk only depends on where the next sub-header is. */
  lemma WalkAhead(file: seq<byte>, pos: nat, nextpos: nat, end: nat)
    requires pos <= nextpos
    ensures Walk(file, pos, nextpos, end) == Walk(file, nextpos, nextpos, end)
  {
  }

  /** The "bad chunk length" guard never fires: chunk lengths are unsigned,
      so the next position is never behind the current one. */
  lemma {:induction false} WalkNeverBackward(file: seq<byte>, pos: nat, nextpos: nat, end: nat)
    requires pos <= nextpos
    ensures Walk(file, pos, nextpos, end) != Err(BadChunkLength)
    decreases end - nextpos
  {
    if nextpos < end && nextpos + 8 <= |file| {
      var p := nextpos + 8;
      WalkNeverBackward(file, p, p + Padded(U32At(file, nextpos + 4)), end);
    }
  }

  lemma ScanNeverBadChunkLength(file: seq<byte>, expected: Option<seq<byte>>)
    ensures ScanSpec(file, expected) != Err(BadChunkLength)
  {
    if |file| >= 12 {
      WalkNeverBackward(file, 12, 12, U32At(file, 4));
    }
  }

  /** A successful walk yields a framed chunk list. */
  lemma {:induction false} WalkFramed(file: seq<byte>, at: nat, end: nat)
    requires Walk(file, at, at, end).Ok?
    ensures FramedFrom(file, at, end, Walk(file, at, at, end).value)
    decreases end - at
  {
    if at < end {
      var p := at + 8;
      var len := U32At(file, at + 4);
      var next := p + Padded(len);
      WalkAhead(file, p, next, end);
      WalkFramed(file, next, end);
      var rest := Walk(file, next, next, end).value;
      var c := ChunkEntry(file[at..at + 4], p, len);
      var cs := [c] + rest;
      assert Walk(file, at, at, end).value == cs;
      assert HeaderAt(file, c);
      forall k | 0 <= k < |cs| - 1
        ensures cs[k + 1].posn == cs[k].posn + Padded(cs[k].len) + 8
      {
        if k > 0 { assert cs[k] == rest[k - 1] && cs[k + 1] == rest[k]; }
      }
    }
  }

  /** Conversely, a framed chunk list is exactly what the walk produces. */
  lemma {:induction false} FramedWalk(file: seq<byte>, at: nat, end: nat, cs: seq<ChunkEntry>)
    requires FramedFrom(file, at, end, cs)
    ensures Walk(file, at, at, end) == Ok(cs)
    decreases |cs|
  {
    if |cs| > 0 {
      FramedHead(file, at, end, cs);
      FramedTail(file, at, end, cs);
      FramedWalk(file, cs[0].posn + Padded(cs[0].len), end, cs[1..]);
      WalkCons(file, at, end, cs[0], cs[1..]);
      ConsSplit(cs);
    }
  }

  lemma FramedHead(file: seq<byte>, at: nat, end: nat, cs: seq<ChunkEntry>)
    requires FramedFrom(file, at, end, cs) && |cs| > 0
    ensures HeaderAt(file, cs[0]) && cs[0].posn == at + 8 && at < end
  {
  }

  /** One step of the walk over the sub-header of c at `at`, followed by
      the walk over the remaining chunks. */
  lemma WalkCons(file: seq<byte>, at: nat, end: nat, c: ChunkEntry, rest: seq<ChunkEntry>)
    requires HeaderAt(file, c) && c.posn == at + 8 && at < end
    requires Walk(file, c.posn + Padded(c.len), c.posn + Padded(c.len), end) == Ok(rest)
    ensures Walk(file, at, at, end) == Ok([c] + rest)
  {
    var next := c.posn + Padded(c.len);
    WalkAhead(file, c.posn, next, end);
    assert ChunkEntry(file[at..at + 4], at + 8, U32At(file, at + 4)) == c;
  }

  lemma ConsSplit(cs: seq<ChunkEntry>)
    requires |cs| > 0
    ensures [cs[0]] + cs[1..] == cs
  {
  }

  lemma FramedTail(file: seq<byte>, at: nat, end: nat, cs: seq<ChunkEntry>)
    requires FramedFrom(file, at, end, cs) && |cs| > 0
    ensures FramedFrom(file, cs[0].posn + Padded(cs[0].len), end, cs[1..])
  {
    var rest := cs[1..];
    if |rest| > 0 {
      assert rest[0] == cs[1];
      assert HeaderAt(file, cs[1]) && cs[1].posn - 8 < end;
    }
    forall k | 0 <= k < |rest| ensures HeaderAt(file, rest[k]) && rest[k].posn - 8 < end {
      assert rest[k] == cs[k + 1];
    }
    forall k | 0 <= k < |rest| - 1 ensures rest[k + 1].posn == rest[k].posn + Padded(rest[k].len) + 8 {
      assert rest[k] == cs[k + 1] && rest[k + 1] == cs[k + 2];
    }
  }

  /** A scan succeeds exactly when the header checks pass and the chunk
      sub-headers, starting at offset 12, frame the file up to the declared
      RIFF length, and the index it returns is that framing. */
  lemma ScanIsFraming(file: seq<byte>, expected: Option<seq<byte>>, cs: seq<ChunkEntry>)
    ensures ScanSpec(file, expected).Ok? ==>
      FramedFrom(file, 12, U32At(file, 4), ScanSpec(file, expected).value.chunks)
    ensures (|file| >= 12 && file[..4] == RiffTag && (expected.Some? ==> expected.value == file[8..12]) &&
             FramedFrom(file, 12, U32At(file, 4), cs)) ==>
      ScanSpec(file, expected) == Ok(RiffIndex(file[8..12], U32At(file, 4), cs))
  {
    if |file| >= 12 && file[..4] == RiffTag && (expected.Some? ==> expected.value == file[8..12]) {
      var length := U32At(file, 4);
      if Walk(file, 12, 12, length).Ok? {
        WalkFramed(file, 12, length);
      }
      if FramedFrom(file, 12, length, cs) {
        FramedWalk(file, 12, length, cs);
      }
    }
  }

  /** Recorded payload positions strictly increase, by at least a sub-header
      each, so the padded extents of the chunks never overlap. */
  lemma {:induction false} FramedIncreasing(file: seq<byte>, at: nat, end: nat, cs: seq<ChunkEntry>, j: nat, k: nat)
    requires FramedFrom(file, at, end, cs)
    requires j < k < |cs|
    ensures cs[j].posn + Padded(cs[j].len) + 8 <= cs[k].posn
    decreases k - j
  {
    if j + 1 < k {
      FramedIncreasing(file, at, end, cs, j + 1, k);
    }
  }

  // ---------------------------------------------------------------------------
  // Chunk lookup

  /** find_chunk_data: the first entry, in scan order, with the given tag. */
  function FindChunk(chunks: seq<ChunkEntry>, id: seq<byte>): (r: Result<ChunkEntry>)
    ensures r.Err? <==> forall k :: 0 <= k < |chunks| ==> chunks[k].id != id
    ensures r.Err? ==> r.error == ChunkNotFound
    ensures r.Ok? ==> exists k :: (0 <= k < |chunks| && chunks[k] == r.value && chunks[k].id == id &&
                                   forall j :: 0 <= j < k ==> chunks[j].id != id)
  {
    if |chunks| == 0 then Err(ChunkNotFound)
    else if chunks[0].id == id then Ok(chunks[0])
    else
      var r := FindChunk(chunks[1..], id);
      assert r.Ok? ==> exists k :: (0 < k < |chunks| && chunks[k] == r.value && chunks[k].id == id &&
                                    forall j :: 0 <= j < k ==> chunks[j].id != id) by {
        if r.Ok? {
          var k :| 0 <= k < |chunks[1..]| && chunks[1..][k] == r.value && chunks[1..][k].id == id &&
            forall j :: 0 <= j < k ==> chunks[1..][j].id != id;
          assert chunks[k + 1] == r.value;
          forall j | 0 <= j < k + 1 ensures chunks[j].id != id {
            if j > 0 { assert chunks[j] == chunks[1..][j - 1]; }
          }
        }
      }
      assert r.Err? ==> forall k :: 0 <= k < |chunks| ==> chunks[k].id != id by {
        if r.Err? {
          forall k | 0 <= k < |chunks| ensures chunks[k].id != id {
            if k > 0 { assert chunks[k] == chunks[1..][k - 1]; }
          }
        }
      }
      r
  }

  /** get_chunk_data: seek to the payload and read its declared length;
      at end of file Python's read returns fewer bytes. */
  function GetChunkData(file: seq<byte>, index: RiffIndex, id: seq<byte>): (r: Result<seq<byte>>)
    ensures r.Ok? <==> FindChunk(index.chunks, id).Ok?
    ensures r.Ok? ==> |r.value| <= FindChunk(index.chunks, id).value.len
    ensures r.Ok? && FindChunk(index.chunks, id).value.posn + FindChunk(index.chunks, id).value.len <= |file| ==>
      r.value == file[FindChunk(index.chunks, id).value.posn..][..FindChunk(index.chunks, id).value.len]
  {
    match FindChunk(index.chunks, id)
    case Ok(c) => Ok(Read(file, c.posn, c.len))
    case Err(e) => Err(e)
  }
}
