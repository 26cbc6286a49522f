/** `MIDIPlayer::load_file`: checks the Standard MIDI File header chunk, then
    reads as many chunks as the header declares tracks, keeping the `MTrk` ones
    as tracks whose first delta time has already been read. The file is the
    sequence of its bytes; the words it holds are read on a little-endian host
    and byte-swapped with `ntohl`/`ntohs`, which gives their big-endian value. */
module Loader {
  import opened Bytes
  import opened Vlq
  import opened Tracks

  /** The chunk tags "MThd" and "MTrk". */
  const MTHD: seq<byte> := [0x4D, 0x54, 0x68, 0x64]
  const MTRK: seq<byte> := [0x4D, 0x54, 0x72, 0x6B]

  /** The only header length the loader accepts. */
  const HEADER_LENGTH: nat := 6

  /** A division word at or above this selects SMPTE timing. */
  const SMPTE_FLAG: nat := 0x8000

  /** Offset of the first chunk after the header chunk. */
  const FIRST_CHUNK: nat := 14

  /** The exceptions `load_file` throws for a file it could open. */
  datatype LoadError = NotMidi | InvalidHeaderLength | SmpteTiming

  datatype LoadResult =
    | Loaded(timeDiv: nat, tracks: seq<Track>)
    | Failed(error: LoadError)

  /** The 4-byte tag at `p`. */
  function Tag(file: seq<byte>, p: nat): seq<byte>
    requires p + 4 <= |file|
  {
    file[p..p + 4]
  }

  /** The track a chunk body becomes: the constructor, then `update_tick`. */
  function LoadTrack(body: seq<byte>): (t: Track)
    requires HasVlq(body, 0)
    ensures var d := DecodeVariableLength(body, 0);
            && t.data == body && t.tick == d.value && t.offset == d.next
            && t.tick < INT_LIMIT && WellPacked(t)
            && t.message == 0 && t.temp == 0 && t.longMsg == []
  {
    UpdateTick(NewTrack(body))
  }

  /** Every read of the chunk loop, from `pos` with `count` chunks still to
      read, lies inside the file, and every `MTrk` body starts with a delta time
      of at most four bytes (which `update_tick` reads right away). */
  predicate ChunksInBounds(file: seq<byte>, pos: nat, count: nat)
    decreases count
  {
    count == 0 ||
    (pos + 4 <= |file| &&
     if Tag(file, pos) != MTRK then ChunksInBounds(file, pos + 4, count - 1)
     else
       && pos + 8 <= |file|
       && var len := ReadU32(file, pos + 4);
          && pos + 8 + len <= |file|
          && HasVlq(file[pos + 8..pos + 8 + len], 0)
          && ChunksInBounds(file, pos + 8 + len, count - 1))
  }

  /** An `MTrk` chunk starts at `p`, its body lies inside the file at the
      length it declares, and the body starts with a delta time. */
  predicate TrackChunkAt(file: seq<byte>, p: nat)
  {
    && p + 8 <= |file| && Tag(file, p) == MTRK
    && p + 8 + ReadU32(file, p + 4) <= |file|
    && HasVlq(file[p + 8..p + 8 + ReadU32(file, p + 4)], 0)
  }

  /** The body of the `MTrk` chunk at `p`, at its declared length. */
  function ChunkBody(file: seq<byte>, p: nat): (body: seq<byte>)
    requires TrackChunkAt(file, p)
    ensures |body| == ReadU32(file, p + 4)
  {
    file[p + 8..p + 8 + ReadU32(file, p + 4)]
  }

  /** The offsets of the `MTrk` chunks the chunk loop reads, in file order. */
  function TrackChunkOffsets(file: seq<byte>, pos: nat, count: nat): (ps: seq<nat>)
    requires ChunksInBounds(file, pos, count)
    ensures |ps| <= count
    ensures forall k :: 0 <= k < |ps| ==> pos <= ps[k] && TrackChunkAt(file, ps[k])
    ensures forall i, j :: 0 <= i < j < |ps| ==> ps[i] < ps[j]
    decreases count
  {
    if count == 0 then []
    else if Tag(file, pos) != MTRK then TrackChunkOffsets(file, pos + 4, count - 1)
    else
      var next := pos + 8 + ReadU32(file, pos + 4);
      var rest := TrackChunkOffsets(file, next, count - 1);
      assert pos < next;
      var ps := [pos] + rest;
      assert ps[1..] == rest;
      ps
  }

  /** The chunk loop of `load_file`: `count` passes, each reading a 4-byte tag;
      an `MTrk` tag is followed by a length word and that many body bytes, which
      become a track; any other tag is skipped by itself, so the next pass reads
      its tag from the foreign chunk's length word. The tracks are the bodies of
      the `MTrk` chunks the loop meets, in file order. */
  function ReadChunks(file: seq<byte>, pos: nat, count: nat): (r: seq<Track>)
    requires ChunksInBounds(file, pos, count)
    ensures |r| <= count
    decreases count
  {
    if count == 0 then []
    else if Tag(file, pos) != MTRK then ReadChunks(file, pos + 4, count - 1)
    else
      var len := ReadU32(file, pos + 4);
      [LoadTrack(file[pos + 8..pos + 8 + len])] + ReadChunks(file, pos + 8 + len, count - 1)
  }

  /** The tracks of the chunk loop are the bodies of the `MTrk` chunks at the
      offsets `TrackChunkOffsets` finds, one track per offset, in order. */
  predicate TracksAtOffsets(file: seq<byte>, pos: nat, count: nat)
    requires ChunksInBounds(file, pos, count)
  {
    var r := ReadChunks(file, pos, count);
    var ps := TrackChunkOffsets(file, pos, count);
    |r| == |ps| && forall k :: 0 <= k < |r| ==> r[k] == LoadTrack(ChunkBody(file, ps[k]))
  }

  /** A pass over a foreign tag adds no track and no offset. */
  lemma SkipStep(file: seq<byte>, pos: nat, count: nat)
    requires ChunksInBounds(file, pos, count) && count > 0 && Tag(file, pos) != MTRK
    requires TracksAtOffsets(file, pos + 4, count - 1)
    ensures TracksAtOffsets(file, pos, count)
  {
    assert ReadChunks(file, pos, count) == ReadChunks(file, pos + 4, count - 1);
    assert TrackChunkOffsets(file, pos, count) == TrackChunkOffsets(file, pos + 4, count - 1);
  }

  /** A pass over an `MTrk` chunk adds its offset and the track of its body in front. */
  lemma TrackStep(file: seq<byte>, pos: nat, count: nat)
    requires ChunksInBounds(file, pos, count) && count > 0 && Tag(file, pos) == MTRK
    requires TracksAtOffsets(file, pos + 8 + ReadU32(file, pos + 4), count - 1)
    ensures TracksAtOffsets(file, pos, count)
  {
    var next := pos + 8 + ReadU32(file, pos + 4);
    var rest := ReadChunks(file, next, count - 1);
    var ps := TrackChunkOffsets(file, next, count - 1);
    var r := ReadChunks(file, pos, count);
    var qs := TrackChunkOffsets(file, pos, count);
    assert r == [LoadTrack(ChunkBody(file, pos))] + rest;
    assert qs == [pos] + ps;
    forall k | 0 <= k < |r|
      ensures r[k] == LoadTrack(ChunkBody(file, qs[k]))
    {
      if k > 0 {
        assert r[k] == rest[k - 1] && qs[k] == ps[k - 1];
      }
    }
  }

  /** The chunk loop keeps exactly the `MTrk` chunks it meets. */
  lemma {:induction false} ReadChunksAtOffsets(file: seq<byte>, pos: nat, count: nat)
    requires ChunksInBounds(file, pos, count)
    ensures TracksAtOffsets(file, pos, count)
    decreases count
  {
    if count > 0 {
      if Tag(file, pos) != MTRK {
        ReadChunksAtOffsets(file, pos + 4, count - 1);
        SkipStep(file, pos, count);
      } else {
        ReadChunksAtOffsets(file, pos + 8 + ReadU32(file, pos + 4), count - 1);
        TrackStep(file, pos, count);
      }
    }
  }

  /** Every read `load_file` makes lies inside the file: the tag, then (for an
      `MThd` file) the length word, then (for a length of 6) the format, count and
      division words, then (for metrical timing) the chunks. */
  predicate LoadReadsInBounds(file: seq<byte>)
  {
    && |file| >= 4
    && (Tag(file, 0) == MTHD ==>
          && |file| >= 8
          && (ReadU32(file, 4) == HEADER_LENGTH ==>
                && |file| >= FIRST_CHUNK
                && (ReadU16(file, 12) < SMPTE_FLAG ==> ChunksInBounds(file, FIRST_CHUNK, ReadU16(file, 10)))))
  }

  /** `MIDIPlayer::load_file` on the bytes of a file it could open. The format
      word is read and ignored. */
  function LoadFile(file: seq<byte>): (r: LoadResult)
    requires LoadReadsInBounds(file)
    ensures r == Failed(NotMidi) <==> Tag(file, 0) != MTHD
    ensures r == Failed(InvalidHeaderLength) <==> Tag(file, 0) == MTHD && ReadU32(file, 4) != HEADER_LENGTH
    ensures r == Failed(SmpteTiming) <==>
              Tag(file, 0) == MTHD && ReadU32(file, 4) == HEADER_LENGTH && ReadU16(file, 12) >= SMPTE_FLAG
    ensures r.Loaded? ==> r.timeDiv == ReadU16(file, 12) < SMPTE_FLAG
    ensures r.Loaded? ==> r.tracks == ReadChunks(file, FIRST_CHUNK, ReadU16(file, 10))
    ensures r.Loaded? ==> |r.tracks| <= ReadU16(file, 10)
  {
    if Tag(file, 0) != MTHD then Failed(NotMidi)
    else if ReadU32(file, 4) != HEADER_LENGTH then Failed(InvalidHeaderLength)
    else
      var trackCount := ReadU16(file, 10);
      var timeDiv := ReadU16(file, 12);
      if timeDiv >= SMPTE_FLAG then Failed(SmpteTiming)
      else Loaded(timeDiv, ReadChunks(file, FIRST_CHUNK, trackCount))
  }

  // ----------------------------------------------------------- reference writer

  /** A body every chunk can declare and `update_tick` can start on. */
  predicate ValidBody(body: seq<byte>)
  {
    |body| < U32_LIMIT && HasVlq(body, 0)
  }

  predicate AllValid(bodies: seq<seq<byte>>)
  {
    forall k :: 0 <= k < |bodies| ==> ValidBody(bodies[k])
  }

  lemma AllValidTail(bodies: seq<seq<byte>>)
    requires AllValid(bodies) && |bodies| > 0
    ensures ValidBody(bodies[0]) && AllValid(bodies[1..])
  {
    assert forall k :: 0 <= k < |bodies| - 1 ==> bodies[1..][k] == bodies[k + 1];
  }

  /** The tracks loaded from the given bodies, in order. */
  function LoadTracks(bodies: seq<seq<byte>>): (r: seq<Track>)
    requires AllValid(bodies)
    ensures |r| == |bodies|
    ensures forall k :: 0 <= k < |r| ==> r[k] == LoadTrack(bodies[k])
    decreases |bodies|
  {
    if |bodies| == 0 then []
    else
      var rest := LoadTracks(bodies[1..]);
      assert forall k :: 0 < k < |bodies| ==> bodies[1..][k - 1] == bodies[k];
      [LoadTrack(bodies[0])] + rest
  }

  lemma LoadTracksCons(bodies: seq<seq<byte>>)
    requires AllValid(bodies) && |bodies| > 0
    ensures AllValid(bodies[1..])
    ensures LoadTracks(bodies) == [LoadTrack(bodies[0])] + LoadTracks(bodies[1..])
  {
    AllValidTail(bodies);
  }

  /** An `MTrk` chunk: tag, big-endian length word, body. */
  function TrackChunk(body: seq<byte>): (c: seq<byte>)
    requires |body| < U32_LIMIT
    ensures |c| == 8 + |body|
  {
    MTRK + U32Bytes(|body|) + body
  }

  lemma TrackChunkParts(body: seq<byte>)
    requires |body| < U32_LIMIT
    ensures var c := TrackChunk(body);
            c[0..4] == MTRK && c[4..8] == U32Bytes(|body|) && c[8..8 + |body|] == body
  {
  }

  function TrackChunks(bodies: seq<seq<byte>>): seq<byte>
    requires AllValid(bodies)
    decreases |bodies|
  {
    if |bodies| == 0 then []
    else
      assert AllValid(bodies[1..]) by {
        assert forall k :: 0 <= k < |bodies| - 1 ==> bodies[1..][k] == bodies[k + 1];
      }
      TrackChunk(bodies[0]) + TrackChunks(bodies[1..])
  }

  /** The header chunk of a file in format `format` with `count` tracks and
      division `timeDiv`. */
  function Header(format: nat, count: nat, timeDiv: nat): (h: seq<byte>)
    requires format < U16_LIMIT && count < U16_LIMIT && timeDiv < U16_LIMIT
    ensures |h| == FIRST_CHUNK
  {
    MTHD + U32Bytes(HEADER_LENGTH) + U16Bytes(format) + U16Bytes(count) + U16Bytes(timeDiv)
  }

  lemma HeaderParts(format: nat, count: nat, timeDiv: nat)
    requires format < U16_LIMIT && count < U16_LIMIT && timeDiv < U16_LIMIT
    ensures var h := Header(format, count, timeDiv);
            && h[0..4] == MTHD && h[4..8] == U32Bytes(HEADER_LENGTH)
            && h[10..12] == U16Bytes(count) && h[12..14] == U16Bytes(timeDiv)
  {
  }

  /** A file with metrical division `timeDiv` and one `MTrk` chunk per body. */
  function EncodeFile(format: nat, timeDiv: nat, bodies: seq<seq<byte>>): seq<byte>
    requires format < U16_LIMIT && timeDiv < U16_LIMIT && |bodies| < U16_LIMIT
    requires AllValid(bodies)
  {
    Header(format, |bodies|, timeDiv) + TrackChunks(bodies)
  }

  /** One `MTrk` chunk at `pos`: its tag, its length word and its body. */
  lemma ReadTrackChunk(file: seq<byte>, pos: nat, body: seq<byte>)
    requires |body| < U32_LIMIT
    requires pos + 8 + |body| <= |file| && file[pos..pos + 8 + |body|] == TrackChunk(body)
    ensures Tag(file, pos) == MTRK
    ensures ReadU32(file, pos + 4) == |body|
    ensures file[pos + 8..pos + 8 + |body|] == body
  {
    var c := TrackChunk(body);
    var e := pos + 8 + |body|;
    TrackChunkParts(body);
    SliceOfSlice(file, pos, e, 0, 4);
    SliceOfSlice(file, pos, e, 4, 8);
    SliceOfSlice(file, pos, e, 8, 8 + |body|);
    assert file[pos + 4..pos + 8] == U32Bytes(|body|);
    ReadU32Value(file, pos + 4);
  }

  /** One pass of the chunk loop over an `MTrk` chunk. */
  lemma ReadChunksUnfold(file: seq<byte>, pos: nat, count: nat)
    requires ChunksInBounds(file, pos, count) && count > 0 && Tag(file, pos) == MTRK
    ensures ReadChunks(file, pos, count)
         == [LoadTrack(file[pos + 8..pos + 8 + ReadU32(file, pos + 4)])]
            + ReadChunks(file, pos + 8 + ReadU32(file, pos + 4), count - 1)
  {
  }

  /** One pass of the chunk loop over an `MTrk` chunk holding `body`. */
  lemma ReadChunksTrack(file: seq<byte>, pos: nat, count: nat, body: seq<byte>)
    requires ChunksInBounds(file, pos, count) && count > 0 && Tag(file, pos) == MTRK
    requires ReadU32(file, pos + 4) == |body| && file[pos + 8..pos + 8 + |body|] == body
    ensures ReadChunks(file, pos, count) == [LoadTrack(body)] + ReadChunks(file, pos + 8 + |body|, count - 1)
  {
    ReadChunksUnfold(file, pos, count);
    assert pos + 8 + ReadU32(file, pos + 4) == pos + 8 + |body|;
    assert file[pos + 8..pos + 8 + ReadU32(file, pos + 4)] == body;
  }

  /** The chunks `TrackChunks(bodies)` lie in `file` at `pos`. */
  predicate ChunksLaid(file: seq<byte>, pos: nat, bodies: seq<seq<byte>>)
    requires AllValid(bodies)
  {
    pos + |TrackChunks(bodies)| <= |file| && file[pos..pos + |TrackChunks(bodies)|] == TrackChunks(bodies)
  }

  /** The laid chunks split into the first chunk and the rest right behind it. */
  lemma SplitLaid(file: seq<byte>, pos: nat, bodies: seq<seq<byte>>)
    requires AllValid(bodies) && |bodies| > 0 && ChunksLaid(file, pos, bodies)
    ensures AllValid(bodies[1..])
    ensures pos + 8 + |bodies[0]| <= |file| && file[pos..pos + 8 + |bodies[0]|] == TrackChunk(bodies[0])
    ensures ChunksLaid(file, pos + 8 + |bodies[0]|, bodies[1..])
  {
    AllValidTail(bodies);
    var b, rest := bodies[0], bodies[1..];
    assert TrackChunks(bodies) == TrackChunk(b) + TrackChunks(rest);
    SplitAt(file, pos, TrackChunk(b), TrackChunks(rest));
  }

  /** The first of the laid chunks, and the rest right behind it. */
  lemma FirstChunkLaid(file: seq<byte>, pos: nat, bodies: seq<seq<byte>>)
    requires AllValid(bodies) && |bodies| > 0 && ChunksLaid(file, pos, bodies)
    ensures AllValid(bodies[1..])
    ensures Tag(file, pos) == MTRK && ReadU32(file, pos + 4) == |bodies[0]|
    ensures pos + 8 + |bodies[0]| <= |file| && file[pos + 8..pos + 8 + |bodies[0]|] == bodies[0]
    ensures ChunksLaid(file, pos + 8 + |bodies[0]|, bodies[1..])
  {
    SplitLaid(file, pos, bodies);
    AllValidTail(bodies);
    ReadTrackChunk(file, pos, bodies[0]);
  }

  /** The chunk layout as the loop reads it: from `pos`, for each body in turn,
      the `MTrk` tag, a length word equal to the body's length, and the body. */
  predicate BodiesLaid(file: seq<byte>, pos: nat, bodies: seq<seq<byte>>)
    decreases |bodies|
  {
    |bodies| == 0 ||
    (&& pos + 8 + |bodies[0]| <= |file|
     && Tag(file, pos) == MTRK && ReadU32(file, pos + 4) == |bodies[0]|
     && file[pos + 8..pos + 8 + |bodies[0]|] == bodies[0]
     && BodiesLaid(file, pos + 8 + |bodies[0]|, bodies[1..]))
  }

  lemma {:induction false} ChunksLaidBodies(file: seq<byte>, pos: nat, bodies: seq<seq<byte>>)
    requires AllValid(bodies) && ChunksLaid(file, pos, bodies)
    ensures BodiesLaid(file, pos, bodies)
    decreases |bodies|
  {
    if |bodies| > 0 {
      FirstChunkLaid(file, pos, bodies);
      ChunksLaidBodies(file, pos + 8 + |bodies[0]|, bodies[1..]);
    }
  }

  /** Laid bodies keep every read of the chunk loop inside the file. */
  lemma {:induction false} BodiesLaidInBounds(file: seq<byte>, pos: nat, bodies: seq<seq<byte>>)
    requires AllValid(bodies) && BodiesLaid(file, pos, bodies)
    ensures ChunksInBounds(file, pos, |bodies|)
    decreases |bodies|
  {
    if |bodies| > 0 {
      AllValidTail(bodies);
      BodiesLaidInBounds(file, pos + 8 + |bodies[0]|, bodies[1..]);
    }
  }

  /** Laid bodies are read back, one track per body, in order. */
  lemma {:induction false} ReadTrackChunks(file: seq<byte>, pos: nat, bodies: seq<seq<byte>>)
    requires AllValid(bodies) && BodiesLaid(file, pos, bodies)
    ensures ChunksInBounds(file, pos, |bodies|)
    ensures ReadChunks(file, pos, |bodies|) == LoadTracks(bodies)
    decreases |bodies|
  {
    BodiesLaidInBounds(file, pos, bodies);
    if |bodies| > 0 {
      AllValidTail(bodies);
      ReadTrackChunks(file, pos + 8 + |bodies[0]|, bodies[1..]);
      ReadBodiesStep(file, pos, bodies);
    }
  }

  /** The first laid body is read as the first track, in front of the tracks of the rest. */
  lemma ReadBodiesStep(file: seq<byte>, pos: nat, bodies: seq<seq<byte>>)
    requires AllValid(bodies) && |bodies| > 0 && BodiesLaid(file, pos, bodies)
    requires ChunksInBounds(file, pos, |bodies|) && AllValid(bodies[1..])
    requires ChunksInBounds(file, pos + 8 + |bodies[0]|, |bodies[1..]|)
    requires ReadChunks(file, pos + 8 + |bodies[0]|, |bodies[1..]|) == LoadTracks(bodies[1..])
    ensures ReadChunks(file, pos, |bodies|) == LoadTracks(bodies)
  {
    ReadChunksTrack(file, pos, |bodies|, bodies[0]);
    LoadTracksCons(bodies);
  }

  /** A file starting with the header chunk `Header(format, count, timeDiv)`
      passes the tag and length checks and declares `count` and `timeDiv`. */
  lemma ReadHeader(file: seq<byte>, format: nat, count: nat, timeDiv: nat)
    requires format < U16_LIMIT && count < U16_LIMIT && timeDiv < U16_LIMIT
    requires FIRST_CHUNK <= |file| && file[..FIRST_CHUNK] == Header(format, count, timeDiv)
    ensures Tag(file, 0) == MTHD && ReadU32(file, 4) == HEADER_LENGTH
    ensures ReadU16(file, 10) == count && ReadU16(file, 12) == timeDiv
  {
    HeaderParts(format, count, timeDiv);
    SliceOfSlice(file, 0, FIRST_CHUNK, 0, 4);
    SliceOfSlice(file, 0, FIRST_CHUNK, 4, 8);
    SliceOfSlice(file, 0, FIRST_CHUNK, 10, 12);
    SliceOfSlice(file, 0, FIRST_CHUNK, 12, 14);
    assert file[4..8] == U32Bytes(HEADER_LENGTH);
    assert file[10..12] == U16Bytes(count);
    assert file[12..14] == U16Bytes(timeDiv);
    ReadU32Value(file, 4);
    ReadU16Value(file, 10);
    ReadU16Value(file, 12);
  }

  /** The header chunk and the track chunks of an encoded file. */
  lemma EncodeFileParts(format: nat, timeDiv: nat, bodies: seq<seq<byte>>)
    requires format < U16_LIMIT && timeDiv < U16_LIMIT && |bodies| < U16_LIMIT
    requires AllValid(bodies)
    ensures var f := EncodeFile(format, timeDiv, bodies);
            && FIRST_CHUNK <= |f| && f[..FIRST_CHUNK] == Header(format, |bodies|, timeDiv)
            && ChunksLaid(f, FIRST_CHUNK, bodies)
  {
    var h := Header(format, |bodies|, timeDiv);
    var cs := TrackChunks(bodies);
    assert (h + cs)[..FIRST_CHUNK] == h;
    assert (h + cs)[FIRST_CHUNK..FIRST_CHUNK + |cs|] == cs;
  }

  /** A file whose header passes every check loads the tracks of the chunk loop. */
  lemma LoadFileOk(file: seq<byte>, count: nat, timeDiv: nat)
    requires FIRST_CHUNK <= |file| && Tag(file, 0) == MTHD && ReadU32(file, 4) == HEADER_LENGTH
    requires ReadU16(file, 10) == count && ReadU16(file, 12) == timeDiv < SMPTE_FLAG
    requires ChunksInBounds(file, FIRST_CHUNK, count)
    ensures LoadReadsInBounds(file)
    ensures LoadFile(file) == Loaded(timeDiv, ReadChunks(file, FIRST_CHUNK, count))
  {
  }

  /** Round trip: a file written by `EncodeFile` with a metrical division loads
      without error, with that division and one track per body, in order. */
  lemma LoadEncodedFile(format: nat, timeDiv: nat, bodies: seq<seq<byte>>)
    requires format < U16_LIMIT && timeDiv < SMPTE_FLAG && |bodies| < U16_LIMIT
    requires AllValid(bodies)
    ensures LoadReadsInBounds(EncodeFile(format, timeDiv, bodies))
    ensures LoadFile(EncodeFile(format, timeDiv, bodies)) == Loaded(timeDiv, LoadTracks(bodies))
  {
    var f := EncodeFile(format, timeDiv, bodies);
    EncodeFileParts(format, timeDiv, bodies);
    ReadHeader(f, format, |bodies|, timeDiv);
    ChunksLaidBodies(f, FIRST_CHUNK, bodies);
    ReadTrackChunks(f, FIRST_CHUNK, bodies);
    LoadFileOk(f, |bodies|, timeDiv);
  }

  /** The header checks in order: the tag, then the length, then the division. */
  lemma HeaderErrors(file: seq<byte>)
    requires LoadReadsInBounds(file)
    ensures LoadFile(file).Failed? <==>
              Tag(file, 0) != MTHD || ReadU32(file, 4) != HEADER_LENGTH || ReadU16(file, 12) >= SMPTE_FLAG
  {
  }

  /** A header declaring two tracks, a 4-byte chunk tagged "XFIH", then a
      one-event `MTrk` chunk holding only End of Track. */
  function ForeignFile(): seq<byte>
  {
    Header(1, 2, 96) + [0x58, 0x46, 0x49, 0x48] + U32Bytes(4) + [0, 0, 0, 0]
    + TrackChunk([0x00, 0xFF, 0x2F, 0x00])
  }

  lemma ForeignFileParts()
    ensures |ForeignFile()| == 38 && ForeignFile()[..FIRST_CHUNK] == Header(1, 2, 96)
    ensures Tag(ForeignFile(), 14) == [0x58, 0x46, 0x49, 0x48]
    ensures Tag(ForeignFile(), 18) == U32Bytes(4) && U32Bytes(4)[0] == 0
  {
    var h := Header(1, 2, 96);
    var f := ForeignFile();
    assert f[..FIRST_CHUNK] == h;
    assert Tag(f, 14) == [0x58, 0x46, 0x49, 0x48];
    assert Tag(f, 18) == U32Bytes(4);
  }

  /** A foreign chunk swallows the track after it: the loop skips only the
      foreign tag, so the second pass takes the foreign chunk's length word for
      a tag, and the header's count of two passes is used up before the `MTrk`
      chunk is reached. No track is loaded at all. */
  lemma ForeignChunkHidesTrack()
    ensures LoadReadsInBounds(ForeignFile())
    ensures LoadFile(ForeignFile()) == Loaded(96, [])
  {
    var file := ForeignFile();
    ForeignFileParts();
    ReadHeader(file, 1, 2, 96);
    assert ChunksInBounds(file, 18, 1) && ReadChunks(file, 18, 1) == [];
    assert ChunksInBounds(file, 14, 2) && ReadChunks(file, 14, 2) == [];
    LoadFileOk(file, 2, 96);
  }
}
