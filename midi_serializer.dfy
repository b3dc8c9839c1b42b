/**
 * The file assembler (assets/js/midi/midi-serializer.js): the header
 * fields, the scan of the whole buffer for "MTrk" chunks, the post-processing
 * of every track that has music, and getMidi's decision to refuse, drop or
 * return a file. Reading the file from the page is not part of this model:
 * getMidi starts from the file's bytes.
 */
module MidiSerializer {
  import opened Wrappers
  import opened Bytes
  import opened MidiUtility
  import opened TrackScan
  import opened Postprocess

  // ---------------------------------------------------------------------
  // DataView reads
  // ---------------------------------------------------------------------

  const TWO_16: nat := 0x1_0000

  /** `getUint16(byteOffset)`: big-endian, RangeError past the end. */
  function GetUint16(view: seq<Byte>, byteOffset: nat): (r: Result<nat, MidiError>)
    ensures r.Failure? <==> byteOffset + 2 > |view|
    ensures r.Failure? ==> r.error == RangeError
    ensures r.Success? ==> r.value < TWO_16
  {
    if byteOffset + 2 > |view| then Failure(RangeError)
    else Success(view[byteOffset] as int * 0x100 + view[byteOffset + 1] as int)
  }

  /** `getUint32(byteOffset)`: big-endian, RangeError past the end. */
  function GetUint32(view: seq<Byte>, byteOffset: nat): (r: Result<nat, MidiError>)
    ensures r.Failure? <==> byteOffset + 4 > |view|
    ensures r.Failure? ==> r.error == RangeError
    ensures r.Success? ==> r.value < TWO_32
  {
    if byteOffset + 4 > |view| then Failure(RangeError)
    else Success(((view[byteOffset] as int * 0x100 + view[byteOffset + 1] as int) * 0x100
                  + view[byteOffset + 2] as int) * 0x100 + view[byteOffset + 3] as int)
  }

  /** The two bytes a 16-bit field is stored as, most significant first. */
  function Uint16Bytes(v: nat): (r: seq<Byte>)
    requires v < TWO_16
    ensures |r| == 2
  {
    [v / 0x100, v % 0x100]
  }

  /** The four bytes a 32-bit field is stored as, most significant first. */
  function Uint32Bytes(v: nat): (r: seq<Byte>)
    requires v < TWO_32
    ensures |r| == 4
  {
    [v / 0x100_0000, v / 0x1_0000 % 0x100, v / 0x100 % 0x100, v % 0x100]
  }

  lemma Uint16RoundTrip(view: seq<Byte>, byteOffset: nat, v: nat)
    requires v < TWO_16 && byteOffset + 2 <= |view| && view[byteOffset..byteOffset + 2] == Uint16Bytes(v)
    ensures GetUint16(view, byteOffset) == Success(v)
  {
    assert view[byteOffset] == v / 0x100 && view[byteOffset + 1] == v % 0x100 by {
      assert view[byteOffset] == view[byteOffset..byteOffset + 2][0];
      assert view[byteOffset + 1] == view[byteOffset..byteOffset + 2][1];
    }
  }

  lemma Uint32Digits(v: nat)
    requires v < TWO_32
    ensures ((v / 0x100_0000 * 0x100 + v / 0x1_0000 % 0x100) * 0x100 + v / 0x100 % 0x100) * 0x100 + v % 0x100 == v
  {
    var a, b, c, d := v / 0x100_0000, v / 0x1_0000 % 0x100, v / 0x100 % 0x100, v % 0x100;
    assert v / 0x1_0000 == a * 0x100 + b;
    assert v / 0x100 == (a * 0x100 + b) * 0x100 + c;
  }

  lemma Uint32RoundTrip(view: seq<Byte>, byteOffset: nat, v: nat)
    requires v < TWO_32 && byteOffset + 4 <= |view| && view[byteOffset..byteOffset + 4] == Uint32Bytes(v)
    ensures GetUint32(view, byteOffset) == Success(v)
  {
    var field := view[byteOffset..byteOffset + 4];
    assert view[byteOffset] == field[0] && view[byteOffset + 1] == field[1];
    assert view[byteOffset + 2] == field[2] && view[byteOffset + 3] == field[3];
    Uint32Digits(v);
  }

  // ---------------------------------------------------------------------
  // parseHeader
  // ---------------------------------------------------------------------

  /**
   * parseHeader: format, track count and division are the 16-bit fields at
   * bytes 8, 10 and 12; the first read, at byte 12, throws on a buffer
   * shorter than the 14-byte header. As written, the file imports
   * `handleSmtpe`, a name the utility module does not export, so the module
   * does not load (or, under a lenient loader, the call throws). This
   * function is the code with the import name corrected: the SMPTE decoder
   * then runs, but the test reads `.isSmtpe` where the decoder sets
   * `.isSmpte`, so the branch is never taken and the division is the raw
   * field.
   */
  function ParseHeader(view: seq<Byte>): (r: Result<Header, MidiError>)
    ensures r.Failure? <==> |view| < HEADER_SIZE
    ensures r.Failure? ==> r.error == RangeError
    ensures r.Success? ==> r.value.format < TWO_16 && r.value.numTracks < TWO_16 && r.value.division < TWO_16
    ensures r.Success? ==> (r.value.isMidi <==> view[..4] == MTHD_BYTES || view[..4] == MTRK_BYTES)
  {
    match GetUint16(view, 12)
    case Failure(e) => Failure(e)
    case Success(division) =>
      Success(Header(IsMidi(view).value, GetUint16(view, 8).value, GetUint16(view, 10).value, division))
  }

  /** The 14 bytes of a header chunk: "MThd", the length 6, then format, track count and division. */
  function HeaderBytes(format: nat, numTracks: nat, division: nat): (r: seq<Byte>)
    requires format < TWO_16 && numTracks < TWO_16 && division < TWO_16
    ensures |r| == HEADER_SIZE
  {
    MTHD_BYTES + [0, 0, 0, 6] + Uint16Bytes(format) + Uint16Bytes(numTracks) + Uint16Bytes(division)
  }

  /** A header written by the standard layout reads back as written, and as a MIDI file. */
  lemma ParseHeaderRoundTrip(format: nat, numTracks: nat, division: nat, rest: seq<Byte>)
    requires format < TWO_16 && numTracks < TWO_16 && division < TWO_16
    ensures ParseHeader(HeaderBytes(format, numTracks, division) + rest)
         == Success(Header(true, format, numTracks, division))
  {
    var view := HeaderBytes(format, numTracks, division) + rest;
    assert view[..4] == MTHD_BYTES;
    assert view[8..10] == Uint16Bytes(format);
    assert view[10..12] == Uint16Bytes(numTracks);
    assert view[12..14] == Uint16Bytes(division);
    Uint16RoundTrip(view, 8, format);
    Uint16RoundTrip(view, 10, numTracks);
    Uint16RoundTrip(view, 12, division);
  }

  // ---------------------------------------------------------------------
  // parseTracks
  // ---------------------------------------------------------------------

  /** The metadata parseTracks records for a chunk. */
  datatype ChunkInfo = ChunkInfo(startingBytes: nat, trackLength: nat)

  /** An element of the tracks array; `playableMusic` is set only for a track with music. */
  datatype TrackChunk = TrackChunk(metadata: ChunkInfo, track: ParsedTrack, playableMusic: Option<seq<Played>>)

  /** The four bytes at `i` read as "MTrk", the only key of midiConstants whose value is "Track". */
  predicate IsTrackMagic(view: seq<Byte>, i: nat)
  {
    ParseBytes(view, i, i + MAGIC_STRING_SIZE) == Success("MTrk")
  }

  lemma TrackMagicBytes(view: seq<Byte>, i: nat)
    requires i + 4 <= |view|
    ensures IsTrackMagic(view, i) <==> view[i..i + 4] == MTRK_BYTES
  {
    MagicStrings();
    assert DataViewSegment(view, i, i + 4).value == view[i..i + 4];
    ParseTextInjective(view[i..i + 4], MTRK_BYTES);
  }

  /**
   * One chunk found at `i`: the 32-bit length after the magic string, then
   * that many bytes from `i + 8` parsed as a track. The metadata's
   * startingBytes is recorded as `i` plus the track's first position.
   */
  function ReadChunk(view: seq<Byte>, i: nat): (r: Result<TrackChunk, MidiError>)
    ensures r.Failure? ==> r.error == RangeError
    ensures r.Success? <==> i + 8 <= |view| && i + 8 + GetUint32(view, i + 4).value <= |view|
    ensures r.Success? ==>
      var trackLength := GetUint32(view, i + 4).value;
      && r.value.metadata == ChunkInfo(2 * i + 8, trackLength)
      && r.value.track == ParseTrackSpec(view[i + 8..i + 8 + trackLength])
      && r.value.playableMusic == None
  {
    match GetUint32(view, i + MAGIC_STRING_SIZE)
    case Failure(e) => Failure(e)
    case Success(trackLength) =>
      var startingBytes := i + TRACK_HEADER_AND_LENGTH_SIZE;
      match DataViewSegment(view, startingBytes, startingBytes + trackLength)
      case Failure(e) => Failure(e)
      case Success(rawTrack) =>
        assert rawTrack == view[startingBytes..startingBytes + trackLength];
        Success(TrackChunk(ChunkInfo(i + startingBytes, trackLength), ParseTrackSpec(rawTrack), None))
  }

  /** `[chunk]` in front of a scan's result, or its failure. */
  function Prepend(done: seq<TrackChunk>, rest: Result<seq<TrackChunk>, MidiError>): Result<seq<TrackChunk>, MidiError>
  {
    match rest
    case Success(chunks) => Success(done + chunks)
    case Failure(e) => Failure(e)
  }

  /** Chunks in the order found: strictly increasing recorded starting bytes, from `2 * i + 8` on. */
  predicate FoundFrom(chunks: seq<TrackChunk>, i: nat)
  {
    && (forall k :: 0 <= k < |chunks| ==> chunks[k].metadata.startingBytes >= 2 * i + 8)
    && (forall k :: 0 < k < |chunks| ==> chunks[k - 1].metadata.startingBytes < chunks[k].metadata.startingBytes)
    && (forall k :: 0 <= k < |chunks| ==> chunks[k].playableMusic == None)
  }

  /**
   * The first loop of parseTracks from position `i`: every position below
   * `byteLength - 4` is checked for "MTrk"; after a chunk the loop resumes at
   * `i + trackLength + 1`.
   */
  function ScanChunks(view: seq<Byte>, i: nat): (r: Result<seq<TrackChunk>, MidiError>)
    ensures r.Failure? ==> r.error == RangeError
    ensures r.Success? ==> FoundFrom(r.value, i)
    decreases |view| - i
  {
    if i + MAGIC_STRING_SIZE >= |view| then Success([])
    else if !IsTrackMagic(view, i) then ScanChunks(view, i + 1)
    else
      match ReadChunk(view, i)
      case Failure(e) => Failure(e)
      case Success(chunk) =>
        var rest := ScanChunks(view, i + chunk.metadata.trackLength + 1);
        Prepend([chunk], rest)
  }

  /** The forEach of parseTracks on one track: post-process its music when there is some. */
  function Attach(chunk: TrackChunk): Result<TrackChunk, MidiError>
  {
    if |chunk.track.music| > 0 then
      match PostprocessSpec(chunk.track.music)
      case Success(playable) => Success(chunk.(playableMusic := Some(playable)))
      case Failure(e) => Failure(e)
    else Success(chunk)
  }

  /** The forEach of parseTracks over all tracks, in order. */
  function AttachAll(chunks: seq<TrackChunk>): (r: Result<seq<TrackChunk>, MidiError>)
    requires forall k :: 0 <= k < |chunks| ==> chunks[k].playableMusic == None
    ensures r.Failure? ==> r.error == UnmatchedNoteOff
    ensures r.Success? ==> |r.value| == |chunks|
    ensures r.Success? ==> forall k :: 0 <= k < |chunks| ==>
      && r.value[k].metadata == chunks[k].metadata
      && r.value[k].track == chunks[k].track
      && (r.value[k].playableMusic.Some? <==> |chunks[k].track.music| > 0)
      && (r.value[k].playableMusic.Some? ==>
            PostprocessSpec(chunks[k].track.music) == Success(r.value[k].playableMusic.value))
  {
    if |chunks| == 0 then Success([])
    else
      match AttachAll(chunks[..|chunks| - 1])
      case Failure(e) => Failure(e)
      case Success(done) =>
        match Attach(chunks[|chunks| - 1])
        case Failure(e) => Failure(e)
        case Success(chunk) => Success(done + [chunk])
  }

  /** parseTracks: the scan, then the post-processing. */
  function ParseTracksSpec(view: seq<Byte>): (r: Result<seq<TrackChunk>, MidiError>)
    ensures r.Failure? ==> r.error == RangeError || r.error == UnmatchedNoteOff
  {
    match ScanChunks(view, 0)
    case Failure(e) => Failure(e)
    case Success(chunks) => AttachAll(chunks)
  }

  // ---------------------------------------------------------------------
  // what the scan promises
  // ---------------------------------------------------------------------

  /** Positions that do not hold "MTrk" are passed over one at a time. */
  lemma {:induction false} SkipNonMagic(view: seq<Byte>, i: nat, j: nat)
    requires i <= j
    requires forall p :: i <= p < j ==> !IsTrackMagic(view, p)
    ensures ScanChunks(view, i) == ScanChunks(view, j)
    decreases j - i
  {
    if i < j && i + 4 < |view| {
      SkipNonMagic(view, i + 1, j);
    }
  }

  /**
   * A chunk laid out at `i` ("MTrk", the 32-bit length, then the track's
   * bytes) is recognised and read back as written, its startingBytes
   * recorded as `2 * i + 8`.
   */
  lemma ChunkReadAt(view: seq<Byte>, i: nat, trackLength: nat, body: seq<Byte>)
    requires i + 8 + trackLength <= |view| && view[i..i + 4] == MTRK_BYTES
    requires trackLength < TWO_32 && view[i + 4..i + 8] == Uint32Bytes(trackLength)
    requires body == view[i + 8..i + 8 + trackLength]
    ensures IsTrackMagic(view, i)
    ensures ReadChunk(view, i) == Success(TrackChunk(ChunkInfo(2 * i + 8, trackLength), ParseTrackSpec(body), None))
  {
    TrackMagicBytes(view, i);
    Uint32RoundTrip(view, i + 4, trackLength);
    assert DataViewSegment(view, i + 8, i + 8 + trackLength) == Success(body);
    ReadChunkFrom(view, i, trackLength, body);
  }

  /** Nothing is found in the last four bytes: the loop stops at `byteLength - 4`. */
  lemma ScanEnds(view: seq<Byte>, i: nat)
    requires i + 4 >= |view|
    ensures ScanChunks(view, i) == Success([])
  {
  }

  /** Two track chunks back to back, each of length 4. */
  function TwoChunks(body1: seq<Byte>, body2: seq<Byte>): (r: seq<Byte>)
    requires |body1| == 4 && |body2| == 4
    ensures |r| == 24
  {
    MTRK_BYTES + [0, 0, 0, 4] + body1 + MTRK_BYTES + [0, 0, 0, 4] + body2
  }

  /** No "MTrk" starts at any position from `i` up to `j`: none of them holds an 'M'. */
  lemma NoMagicBetween(view: seq<Byte>, i: nat, j: nat)
    requires i <= j && j + 3 < |view|
    requires forall p :: i <= p < j ==> view[p] != 0x4D
    ensures ScanChunks(view, i) == ScanChunks(view, j)
  {
    forall p | i <= p < j
      ensures !IsTrackMagic(view, p)
    {
      TrackMagicBytes(view, p);
      assert view[p..p + 4][0] == view[p];
    }
    SkipNonMagic(view, i, j);
  }

  /**
   * The scan over two back-to-back chunks whose first body holds no 'M':
   * after the first chunk it resumes at byte 5, inside that chunk's length
   * field, and goes on byte by byte until the second "MTrk" at byte 12.
   * Both chunks are found, with the starting bytes recorded as 8 and 32
   * (`i + (i + 8)`), where the bodies start at 8 and 20.
   */
  lemma TwoChunksScan(body1: seq<Byte>, body2: seq<Byte>)
    requires |body1| == 4 && |body2| == 4 && forall k :: 0 <= k < 4 ==> body1[k] != 0x4D
    ensures ScanChunks(TwoChunks(body1, body2), 0)
      == Prepend([TrackChunk(ChunkInfo(8, 4), ParseTrackSpec(body1), None)], ScanChunks(TwoChunks(body1, body2), 5))
    ensures ScanChunks(TwoChunks(body1, body2), 0) == Success([
      TrackChunk(ChunkInfo(8, 4), ParseTrackSpec(body1), None),
      TrackChunk(ChunkInfo(32, 4), ParseTrackSpec(body2), None)])
  {
    var view := TwoChunks(body1, body2);
    var first := TrackChunk(ChunkInfo(8, 4), ParseTrackSpec(body1), None);
    var second := TrackChunk(ChunkInfo(32, 4), ParseTrackSpec(body2), None);
    FirstChunkScan(view, body1, body2, first);
    SecondChunkScan(view, body1, body2, second);
    assert [first] + [second] == [first, second];
  }

  /** The first chunk is read at byte 0, and bytes 5 to 11 hold no "MTrk". */
  lemma FirstChunkScan(view: seq<Byte>, body1: seq<Byte>, body2: seq<Byte>, first: TrackChunk)
    requires |body1| == 4 && |body2| == 4 && forall k :: 0 <= k < 4 ==> body1[k] != 0x4D
    requires view == TwoChunks(body1, body2)
    requires first == TrackChunk(ChunkInfo(8, 4), ParseTrackSpec(body1), None)
    ensures ScanChunks(view, 0) == Prepend([first], ScanChunks(view, 5))
    ensures ScanChunks(view, 5) == ScanChunks(view, 12)
  {
    assert Uint32Bytes(4) == [0, 0, 0, 4];
    assert view[0..4] == MTRK_BYTES && view[4..8] == [0, 0, 0, 4] && view[8..12] == body1;
    ChunkReadAt(view, 0, 4, body1);
    ScanAt(view, 0, first, 5);
    assert forall p :: 8 <= p < 12 ==> view[p] == body1[p - 8];
    NoMagicBetween(view, 5, 12);
  }

  /** The second chunk is read at byte 12, and nothing follows it. */
  lemma SecondChunkScan(view: seq<Byte>, body1: seq<Byte>, body2: seq<Byte>, second: TrackChunk)
    requires |body1| == 4 && |body2| == 4
    requires view == TwoChunks(body1, body2)
    requires second == TrackChunk(ChunkInfo(32, 4), ParseTrackSpec(body2), None)
    ensures ScanChunks(view, 12) == Success([second])
  {
    assert Uint32Bytes(4) == [0, 0, 0, 4];
    assert view[12..16] == MTRK_BYTES && view[16..20] == [0, 0, 0, 4] && view[20..24] == body2;
    ChunkReadAt(view, 12, 4, body2);
    ScanAt(view, 12, second, 17);
    NoMagicBetween(view, 17, 20);
    ScanEnds(view, 20);
    assert [second] + [] == [second];
  }

  // ---------------------------------------------------------------------
  // the method
  // ---------------------------------------------------------------------

  /** Once AttachAll has failed on a prefix, it fails on the whole list. */
  lemma {:induction false} AttachFailureStays(chunks: seq<TrackChunk>, n: nat)
    requires forall k :: 0 <= k < |chunks| ==> chunks[k].playableMusic == None
    requires n <= |chunks| && AttachAll(chunks[..n]).Failure?
    ensures AttachAll(chunks) == AttachAll(chunks[..n])
    decreases |chunks| - n
  {
    if n < |chunks| {
      assert chunks[..n + 1][..n] == chunks[..n];
      AttachFailureStays(chunks, n + 1);
    } else {
      assert chunks[..n] == chunks;
    }
  }

  /** A position without "MTrk" is passed over. */
  lemma ScanSkips(view: seq<Byte>, i: nat)
    requires i + 4 < |view| && !IsTrackMagic(view, i)
    ensures ScanChunks(view, i) == ScanChunks(view, i + 1)
  {
  }

  /** A chunk that cannot be read stops the scan with its error. */
  lemma ScanFails(view: seq<Byte>, i: nat)
    requires i + 4 < |view| && IsTrackMagic(view, i) && ReadChunk(view, i).Failure?
    ensures ScanChunks(view, i) == Failure(RangeError)
  {
  }

  /** At a position holding "MTrk" the chunk there is read and the scan resumes `trackLength + 1` bytes on. */
  lemma ScanAt(view: seq<Byte>, i: nat, chunk: TrackChunk, next: nat)
    requires i + 4 < |view| && IsTrackMagic(view, i) && ReadChunk(view, i) == Success(chunk)
    requires next == i + chunk.metadata.trackLength + 1
    ensures ScanChunks(view, i) == Prepend([chunk], ScanChunks(view, next))
  {
  }

  /** A chunk read at `i` comes first, then what the scan finds from `i + trackLength + 1`. */
  lemma ScanReads(view: seq<Byte>, i: nat, chunk: TrackChunk, done: seq<TrackChunk>, next: nat)
    requires i + 4 < |view| && IsTrackMagic(view, i) && ReadChunk(view, i) == Success(chunk)
    requires next == i + chunk.metadata.trackLength + 1
    ensures Prepend(done, ScanChunks(view, i)) == Prepend(done + [chunk], ScanChunks(view, next))
  {
    var rest := ScanChunks(view, next);
    ScanAt(view, i, chunk, next);
    if rest.Success? {
      assert done + ([chunk] + rest.value) == done + [chunk] + rest.value;
    }
  }

  /** The chunk read at `i` from the values the loop body computes. */
  lemma ReadChunkFrom(view: seq<Byte>, i: nat, trackLength: nat, rawTrack: seq<Byte>)
    requires GetUint32(view, i + 4) == Success(trackLength)
    requires DataViewSegment(view, i + 8, i + 8 + trackLength) == Success(rawTrack)
    ensures ReadChunk(view, i) == Success(TrackChunk(ChunkInfo(i + (i + 8), trackLength), ParseTrackSpec(rawTrack), None))
  {
  }

  lemma PrependNothing(done: seq<TrackChunk>, rest: Result<seq<TrackChunk>, MidiError>)
    ensures Prepend([], rest) == rest
    ensures rest == Success([]) ==> Prepend(done, rest) == Success(done)
  {
    if rest.Success? {
      assert [] + rest.value == rest.value;
    }
    if rest == Success([]) {
      assert done + [] == done;
    }
  }

  /** The loop's invariant after a chunk is read. */
  lemma ReadKeeps(view: seq<Byte>, i: nat, chunk: TrackChunk, tracks: seq<TrackChunk>, next: nat)
    requires ScanChunks(view, 0) == Prepend(tracks, ScanChunks(view, i))
    requires i + 4 < |view| && IsTrackMagic(view, i) && ReadChunk(view, i) == Success(chunk)
    requires next == i + chunk.metadata.trackLength + 1
    ensures ScanChunks(view, 0) == Prepend(tracks + [chunk], ScanChunks(view, next))
  {
    ScanReads(view, i, chunk, tracks, next);
  }

  /** The loop's invariant after a position without "MTrk". */
  lemma SkipKeeps(view: seq<Byte>, i: nat, tracks: seq<TrackChunk>)
    requires ScanChunks(view, 0) == Prepend(tracks, ScanChunks(view, i))
    requires i + 4 < |view| && !IsTrackMagic(view, i)
    ensures ScanChunks(view, 0) == Prepend(tracks, ScanChunks(view, i + 1))
  {
    ScanSkips(view, i);
  }

  /** The loop's result when a chunk cannot be read. */
  lemma FailEnds(view: seq<Byte>, i: nat, tracks: seq<TrackChunk>)
    requires ScanChunks(view, 0) == Prepend(tracks, ScanChunks(view, i))
    requires i + 4 < |view| && IsTrackMagic(view, i) && ReadChunk(view, i).Failure?
    ensures ScanChunks(view, 0) == Failure(RangeError)
  {
    ScanFails(view, i);
  }

  /** The body of the first loop at a position holding "MTrk": read and parse one chunk. */
  method ReadTrackAt(view: seq<Byte>, i: nat) returns (r: Result<TrackChunk, MidiError>)
    ensures r == ReadChunk(view, i)
  {
    var lengthRead := GetUint32(view, i + MAGIC_STRING_SIZE);
    if lengthRead.Failure? {
      return Failure(RangeError);
    }
    var trackLength := lengthRead.value;
    var startingBytes := i + TRACK_HEADER_AND_LENGTH_SIZE;
    var rawTrack := ParseDataViewSegment(view, startingBytes, startingBytes + trackLength);
    if rawTrack.Failure? {
      return Failure(RangeError);
    }
    var parsedTrack := ParseTrack(rawTrack.value);
    ReadChunkFrom(view, i, trackLength, rawTrack.value);
    r := Success(TrackChunk(ChunkInfo(i + startingBytes, trackLength), parsedTrack, None));
  }

  /** The first loop of parseTracks: find the chunks and parse each one. */
  method FindTracks(view: seq<Byte>) returns (r: Result<seq<TrackChunk>, MidiError>)
    ensures r == ScanChunks(view, 0)
  {
    var tracks: seq<TrackChunk> := [];
    var i := 0;
    PrependNothing(tracks, ScanChunks(view, 0));
    while i + MAGIC_STRING_SIZE < |view|
      invariant ScanChunks(view, 0) == Prepend(tracks, ScanChunks(view, i))
      decreases |view| - i
    {
      var magicString := ParseBytes(view, i, i + MAGIC_STRING_SIZE);
      var next: nat;
      if magicString == Success("MTrk") {
        var chunk := ReadTrackAt(view, i);
        if chunk.Failure? {
          FailEnds(view, i, tracks);
          return Failure(RangeError);
        }
        next := i + chunk.value.metadata.trackLength + 1;
        ReadKeeps(view, i, chunk.value, tracks, next);
        tracks := tracks + [chunk.value];
      } else {
        next := i + 1;
        SkipKeeps(view, i, tracks);
      }
      i := next;
    }
    PrependNothing(tracks, ScanChunks(view, i));
    r := Success(tracks);
  }

  /** One more track post-processed. */
  lemma AttachStep(chunks: seq<TrackChunk>, k: nat, done: seq<TrackChunk>)
    requires forall j :: 0 <= j < |chunks| ==> chunks[j].playableMusic == None
    requires k < |chunks| && AttachAll(chunks[..k]) == Success(done)
    ensures AttachAll(chunks[..k + 1]) ==
      (match Attach(chunks[k]) case Success(chunk) => Success(done + [chunk]) case Failure(e) => Failure(e))
  {
    assert chunks[..k + 1][..k] == chunks[..k];
  }

  /** The forEach's invariant after the track at `k` is given its music. */
  lemma AttachKeeps(chunks: seq<TrackChunk>, tracks: seq<TrackChunk>, k: nat, chunk: TrackChunk)
    requires forall j :: 0 <= j < |chunks| ==> chunks[j].playableMusic == None
    requires k < |tracks| == |chunks| && tracks[k] == chunks[k]
    requires AttachAll(chunks[..k]) == Success(tracks[..k]) && Attach(chunks[k]) == Success(chunk)
    ensures AttachAll(chunks[..k + 1]) == Success(tracks[k := chunk][..k + 1])
  {
    AttachStep(chunks, k, tracks[..k]);
    assert tracks[k := chunk][..k + 1] == tracks[..k] + [chunk];
  }

  /** The forEach stops at the first track whose music cannot be post-processed. */
  lemma AttachFails(chunks: seq<TrackChunk>, k: nat, done: seq<TrackChunk>)
    requires forall j :: 0 <= j < |chunks| ==> chunks[j].playableMusic == None
    requires k < |chunks| && AttachAll(chunks[..k]) == Success(done)
    requires PostprocessSpec(chunks[k].track.music).Failure? && |chunks[k].track.music| > 0
    ensures AttachAll(chunks) == Failure(UnmatchedNoteOff)
  {
    AttachStep(chunks, k, done);
    AttachFailureStays(chunks, k + 1);
  }

  /** parseTracks: find the tracks, then give each track with music its post-processed music. */
  method ParseTracks(view: seq<Byte>) returns (r: Result<seq<TrackChunk>, MidiError>)
    ensures r == ParseTracksSpec(view)
  {
    var found := FindTracks(view);
    if found.Failure? {
      return Failure(found.error);
    }
    ghost var chunks := found.value;
    var tracks := found.value;
    var k := 0;
    while k < |tracks|
      invariant k <= |tracks| == |chunks|
      invariant forall j :: k <= j < |tracks| ==> tracks[j] == chunks[j]
      invariant AttachAll(chunks[..k]) == Success(tracks[..k])
    {
      var chunk := tracks[k];
      if |chunk.track.music| > 0 {
        var playable := Postprocess.Postprocess(chunk.track.music);
        if playable.Failure? {
          AttachFails(chunks, k, tracks[..k]);
          return Failure(UnmatchedNoteOff);
        }
        chunk := chunk.(playableMusic := Some(playable.value));
      }
      AttachKeeps(chunks, tracks, k, chunk);
      tracks := tracks[k := chunk];
      k := k + 1;
    }
    assert chunks[..k] == chunks;
    assert tracks[..k] == tracks;
    r := Success(tracks);
  }

  // ---------------------------------------------------------------------
  // getMidi
  // ---------------------------------------------------------------------

  /** applicationSettings.maxFileSizeBytes. */
  const MAX_FILE_SIZE_BYTES: nat := 5 * 1024 * 1024

  /** fileSizeExceedsThreshold, with the threshold defaulting to the application setting. */
  predicate FileSizeExceedsThreshold(size: nat, sizeThreshold: nat := MAX_FILE_SIZE_BYTES): (r: bool)
    ensures r <==> size >= sizeThreshold + 1
  {
    size > sizeThreshold
  }

  /**
   * The limit is inclusive: a file of exactly the threshold's size is
   * accepted, one byte more is refused, for the default threshold as for any
   * other.
   */
  lemma SizeLimitInclusive(sizeThreshold: nat)
    ensures !FileSizeExceedsThreshold(sizeThreshold, sizeThreshold) && FileSizeExceedsThreshold(sizeThreshold + 1, sizeThreshold)
    ensures !FileSizeExceedsThreshold(MAX_FILE_SIZE_BYTES) && FileSizeExceedsThreshold(5 * 1024 * 1024 + 1)
  {
  }

  /** The object getMidi resolves to. */
  datatype Midi = Midi(header: Header, tracks: seq<TrackChunk>)

  /**
   * getMidi on the file's bytes: refuse a file over the size limit or without
   * the magic string, resolve to nothing when validateMidi rejects the
   * header, and otherwise return header and tracks. Computing ticksPerSecond
   * reads the tempo meta-event of track 0 and throws when there is none.
   */
  function GetMidi(view: seq<Byte>): (r: Result<Option<Midi>, MidiError>)
    ensures r == Failure(FileTooLarge) <==> |view| > MAX_FILE_SIZE_BYTES
    ensures r.Success? && r.value.Some? ==>
      && ParseHeader(view) == Success(r.value.value.header)
      && r.value.value.header.isMidi
      && ParseTracksSpec(view) == Success(r.value.value.tracks)
      && ValidateMidi(r.value.value.header, r.value.value.tracks)
      && |r.value.value.tracks| > 0
      && 0x51 in r.value.value.tracks[0].track.meta
  {
    if FileSizeExceedsThreshold(|view|) then Failure(FileTooLarge)
    else
      match ParseHeader(view)
      case Failure(e) => Failure(e)
      case Success(header) =>
        if !header.isMidi then Failure(NotMidi)
        else
          match ParseTracksSpec(view)
          case Failure(e) => Failure(e)
          case Success(tracks) =>
            if !ValidateMidi(header, tracks) then Success(None)
            else if |tracks| == 0 || 0x51 !in tracks[0].track.meta then Failure(MissingTempo)
            else Success(Some(Midi(header, tracks)))
  }

  /** A file that parses but whose header disagrees with its tracks resolves to nothing. */
  lemma GetMidiDropsInvalid(view: seq<Byte>, header: Header, tracks: seq<TrackChunk>)
    requires |view| <= MAX_FILE_SIZE_BYTES && ParseHeader(view) == Success(header) && header.isMidi
    requires ParseTracksSpec(view) == Success(tracks)
    ensures GetMidi(view) == Success(None) <==> header.numTracks != |tracks| || header.format > 2
  {
  }

  /**
   * A file that passes every test resolves to its header and tracks, unless
   * track 0 is missing or has no tempo event, which is when the
   * ticksPerSecond line throws.
   */
  lemma GetMidiReturns(view: seq<Byte>, header: Header, tracks: seq<TrackChunk>)
    requires |view| <= MAX_FILE_SIZE_BYTES && ParseHeader(view) == Success(header) && header.isMidi
    requires ParseTracksSpec(view) == Success(tracks) && ValidateMidi(header, tracks)
    ensures GetMidi(view) == Failure(MissingTempo) <==> |tracks| == 0 || 0x51 !in tracks[0].track.meta
    ensures |tracks| > 0 && 0x51 in tracks[0].track.meta ==> GetMidi(view) == Success(Some(Midi(header, tracks)))
  {
  }

  /** A file of the right size and length without a MIDI magic string is refused. */
  lemma GetMidiRefusesNonMidi(view: seq<Byte>)
    requires HEADER_SIZE <= |view| <= MAX_FILE_SIZE_BYTES
    ensures GetMidi(view) == Failure(NotMidi) <==> view[..4] != MTHD_BYTES && view[..4] != MTRK_BYTES
  {
  }
}
