/**
 * Tables and small decoders shared by the track scanner and the file
 * assembler (assets/js/midi/midi-utility-functions.js, with the constants of
 * assets/js/midi/midi-constants.js inlined).
 */
module MidiUtility {
  import opened Wrappers
  import opened Bytes

  // ---------------------------------------------------------------------
  // midiConstants
  // ---------------------------------------------------------------------

  const MAGIC_STRING_SIZE: nat := 4
  const HEADER_SIZE: nat := 14
  const TRACK_HEADER_AND_LENGTH_SIZE: nat := 8
  const TRACK_META_DATA_STARTING_BYTE: Byte := 0xFF

  /** Every key of the midiConstants object; each holds a truthy value. */
  predicate IsMidiConstantsKey(key: string)
  {
    key in {"MThd", "MTrk", "magicStringSize", "headerSize",
            "trackHeaderAndLengthSize", "trackMetaDataStartingByte"}
  }

  // ---------------------------------------------------------------------
  // midiMessage: the table keyed by the high nibble of a status byte
  // ---------------------------------------------------------------------

  datatype MessageKind =
    | NoteOff | NoteOn | PolyphonicKeyPressure | ControlChange
    | ProgramChange | ChannelPressure | PitchWheelChange | SystemMessage

  /** `midiMessage[nibble]`: the entry for a status nibble, if the table has one. */
  function MidiMessage(nibble: int): Option<MessageKind>
  {
    match nibble
    case 0x8 => Some(NoteOff)
    case 0x9 => Some(NoteOn)
    case 0xA => Some(PolyphonicKeyPressure)
    case 0xB => Some(ControlChange)
    case 0xC => Some(ProgramChange)
    case 0xD => Some(ChannelPressure)
    case 0xE => Some(PitchWheelChange)
    case 0xF => Some(SystemMessage)
    case _ => None
  }

  /** The `dataBytes` field of an entry; the system-message entry has none. */
  function DataBytes(kind: MessageKind): Option<nat>
  {
    match kind
    case ProgramChange => Some(1)
    case ChannelPressure => Some(1)
    case SystemMessage => None
    case _ => Some(2)
  }

  /** The status nibble under which the table stores a kind. */
  function KindNibble(kind: MessageKind): nat
  {
    match kind
    case NoteOff => 0x8
    case NoteOn => 0x9
    case PolyphonicKeyPressure => 0xA
    case ControlChange => 0xB
    case ProgramChange => 0xC
    case ChannelPressure => 0xD
    case PitchWheelChange => 0xE
    case SystemMessage => 0xF
  }

  /**
   * The table has an entry exactly for the nibbles 0x8 to 0xF, one kind per
   * nibble; two data bytes follow the status for 0x8-0xB and 0xE, one for
   * 0xC and 0xD, and the 0xF entry has no data-byte count.
   */
  lemma MessageTable(nibble: int)
    ensures MidiMessage(nibble).Some? <==> 0x8 <= nibble <= 0xF
    ensures MidiMessage(nibble).Some? ==> KindNibble(MidiMessage(nibble).value) == nibble
    ensures MidiMessage(nibble).Some? ==>
      DataBytes(MidiMessage(nibble).value) ==
        if nibble == 0xF then None
        else if nibble == 0xC || nibble == 0xD then Some(1)
        else Some(2)
  {
  }

  /** Looking a kind's nibble up in the table gives the kind back. */
  lemma KindNibbleRoundTrip(kind: MessageKind)
    ensures 0x8 <= KindNibble(kind) <= 0xF
    ensures MidiMessage(KindNibble(kind)) == Some(kind)
  {
  }

  // ---------------------------------------------------------------------
  // the system-exclusive handler
  // ---------------------------------------------------------------------

  const SYSTEM_EXCLUSIVE_MESSAGE_END_BYTE: Byte := 0xF7

  /**
   * The handler stored for system-exclusive messages: the position of the
   * first end-of-exclusive byte, and an error when there is none.
   */
  method SystemExclusiveEnd(trackFragment: seq<Byte>) returns (r: Result<nat, MidiError>)
    ensures r.Success? <==> SYSTEM_EXCLUSIVE_MESSAGE_END_BYTE in trackFragment
    ensures r.Failure? ==> r.error == SysExUnterminated
    ensures r.Success? ==> r.value < |trackFragment| && trackFragment[r.value] == SYSTEM_EXCLUSIVE_MESSAGE_END_BYTE
    ensures r.Success? ==> forall j :: 0 <= j < r.value ==> trackFragment[j] != SYSTEM_EXCLUSIVE_MESSAGE_END_BYTE
  {
    var i := 0;
    while i < |trackFragment|
      invariant 0 <= i <= |trackFragment|
      invariant forall j :: 0 <= j < i ==> trackFragment[j] != SYSTEM_EXCLUSIVE_MESSAGE_END_BYTE
    {
      if trackFragment[i] == SYSTEM_EXCLUSIVE_MESSAGE_END_BYTE {
        return Success(i);
      }
      i := i + 1;
    }
    r := Failure(SysExUnterminated);
  }

  // ---------------------------------------------------------------------
  // reading the DataView
  // ---------------------------------------------------------------------

  /**
   * The bytes `startingByte` up to (not including) `endingByte`; getUint8
   * throws a RangeError on the first position past the end of the buffer.
   */
  function DataViewSegment(view: seq<Byte>, startingByte: nat, endingByte: nat): (r: Result<seq<Byte>, MidiError>)
    ensures r.Failure? <==> startingByte < endingByte && endingByte > |view|
    ensures r.Failure? ==> r.error == RangeError
    ensures r.Success? ==> |r.value| == if startingByte < endingByte then endingByte - startingByte else 0
    ensures r.Success? ==> forall k :: 0 <= k < |r.value| ==> r.value[k] == view[startingByte + k]
  {
    if endingByte <= startingByte then Success([])
    else if endingByte > |view| then Failure(RangeError)
    else Success(view[startingByte..endingByte])
  }

  /** parseDataViewSegment: push getUint8(i) for every i in the range. */
  method ParseDataViewSegment(view: seq<Byte>, startingByte: nat, endingByte: nat)
    returns (r: Result<seq<Byte>, MidiError>)
    ensures r == DataViewSegment(view, startingByte, endingByte)
  {
    var bytes: seq<Byte> := [];
    var i := startingByte;
    while i < endingByte
      invariant startingByte <= i
      invariant i == startingByte || (i <= endingByte && i <= |view|)
      invariant |bytes| == i - startingByte
      invariant forall k :: 0 <= k < |bytes| ==> bytes[k] == view[startingByte + k]
    {
      if i >= |view| {
        return Failure(RangeError);
      }
      bytes := bytes + [view[i]];
      i := i + 1;
    }
    if startingByte < endingByte {
      assert bytes == view[startingByte..endingByte];
    }
    r := Success(bytes);
  }

  /** One character per byte, the character code being the byte (String.fromCharCode). */
  function ParseText(payload: seq<Byte>): (r: string)
    ensures |r| == |payload|
    ensures forall k :: 0 <= k < |r| ==> r[k] as int == payload[k]
  {
    seq(|payload|, k requires 0 <= k < |payload| => payload[k] as char)
  }

  /** parseBytes: the segment's bytes as a string. */
  function ParseBytes(view: seq<Byte>, startingByte: nat, endingByte: nat): (r: Result<string, MidiError>)
    ensures r.Success? <==> DataViewSegment(view, startingByte, endingByte).Success?
    ensures r.Success? ==> r.value == ParseText(DataViewSegment(view, startingByte, endingByte).value)
  {
    match DataViewSegment(view, startingByte, endingByte)
    case Success(bytes) => Success(ParseText(bytes))
    case Failure(e) => Failure(e)
  }

  /** Two byte runs spell the same text exactly when they are equal. */
  lemma ParseTextInjective(a: seq<Byte>, b: seq<Byte>)
    ensures ParseText(a) == ParseText(b) <==> a == b
  {
    if ParseText(a) == ParseText(b) {
      assert |a| == |b|;
      forall k | 0 <= k < |a|
        ensures a[k] == b[k]
      {
        assert ParseText(a)[k] == ParseText(b)[k];
      }
    }
  }

  const MTHD_BYTES: seq<Byte> := [0x4D, 0x54, 0x68, 0x64]
  const MTRK_BYTES: seq<Byte> := [0x4D, 0x54, 0x72, 0x6B]

  lemma MagicStrings()
    ensures ParseText(MTHD_BYTES) == "MThd"
    ensures ParseText(MTRK_BYTES) == "MTrk"
  {
  }

  /**
   * isMidi: the first four bytes, read as a string, are a key of
   * midiConstants. That accepts "MThd" and, as written, also "MTrk"; a
   * buffer of fewer than four bytes makes the read throw.
   */
  function IsMidi(view: seq<Byte>): (r: Result<bool, MidiError>)
    ensures r.Success? <==> |view| >= MAGIC_STRING_SIZE
    ensures r.Success? ==> (r.value <==> view[..4] == MTHD_BYTES || view[..4] == MTRK_BYTES)
  {
    match ParseBytes(view, 0, MAGIC_STRING_SIZE)
    case Success(magic) =>
      MagicStrings();
      ParseTextInjective(view[..4], MTHD_BYTES);
      ParseTextInjective(view[..4], MTRK_BYTES);
      assert DataViewSegment(view, 0, 4).value == view[..4];
      Success(IsMidiConstantsKey(magic))
    case Failure(e) => Failure(e)
  }

  // ---------------------------------------------------------------------
  // header checks
  // ---------------------------------------------------------------------

  /** The header record that parseHeader builds. */
  datatype Header = Header(isMidi: bool, format: nat, numTracks: nat, division: nat)

  /** validateMidi: the declared track count matches and the format is 0, 1 or 2. */
  function ValidateMidi<T>(header: Header, tracks: seq<T>): (r: bool)
    ensures r <==> header.numTracks == |tracks| && header.format <= 2
  {
    if header.numTracks != |tracks| then false
    else if header.format < 0 || header.format > 2 then false
    else true
  }

  function Abs(x: int): nat { if x < 0 then -x else x }

  /** The object handleSmpte returns: `division` is present only for SMPTE timing. */
  datatype Smpte = Smpte(isSmpte: bool, division: Option<int>)

  /**
   * handleSmpte on the 16-bit division field. Bit 15 selects SMPTE timing;
   * then the high byte is OR-ed with 0x80000000, made absolute and multiplied
   * by the low byte. Because the OR sets bit 31 of a 32-bit value, the factor
   * taken from the high byte is 2^31 minus that byte.
   */
  function HandleSmpte(division: nat): (r: Smpte)
    requires division < 0x1_0000
    ensures r.isSmpte <==> division >= 0x8000
    ensures r.division.Some? <==> r.isSmpte
    ensures r.isSmpte ==> r.division.value == (TWO_31 - division / 256) * (division % 256)
  {
    MaskKeepsLowBits(division / 0x8000, 1);
    MaskKeepsLowBits(division, 8);
    assert Pow2(1) == 2 && Pow2(8) == 256;
    if BitAnd(division / 0x8000, 1) == 1 then
      // bit 31 of (division >> 8) is clear, so the OR adds 2^31
      var high := Signed32(division / 256 + TWO_31);
      var low := BitAnd(division, 0xFF);
      Smpte(true, Some(Abs(high) * low))
    else
      Smpte(false, None)
  }

  /**
   * The reading the division field has in the MIDI file format: the high
   * byte is a negative 8-bit frame rate, the low byte the ticks per frame.
   */
  function SmpteTicksPerSecond(division: nat): (r: nat)
    requires 0x8000 <= division < 0x1_0000
    ensures r == (0x100 - division / 256) * (division % 256)
  {
    var framesPerSecond := 0x100 - division / 256;
    framesPerSecond * (division % 256)
  }

  /** The four frame rates give 24, 25, 29 and 30 frames per second times the ticks per frame. */
  lemma SmpteStandardRates(ticksPerFrame: Byte)
    ensures SmpteTicksPerSecond(0xE800 + ticksPerFrame) == 24 * ticksPerFrame
    ensures SmpteTicksPerSecond(0xE700 + ticksPerFrame) == 25 * ticksPerFrame
    ensures SmpteTicksPerSecond(0xE300 + ticksPerFrame) == 29 * ticksPerFrame
    ensures SmpteTicksPerSecond(0xE200 + ticksPerFrame) == 30 * ticksPerFrame
  {
    assert (0xE800 + ticksPerFrame) / 256 == 0xE8 && (0xE800 + ticksPerFrame) % 256 == ticksPerFrame;
    assert (0xE700 + ticksPerFrame) / 256 == 0xE7 && (0xE700 + ticksPerFrame) % 256 == ticksPerFrame;
    assert (0xE300 + ticksPerFrame) / 256 == 0xE3 && (0xE300 + ticksPerFrame) % 256 == ticksPerFrame;
    assert (0xE200 + ticksPerFrame) / 256 == 0xE2 && (0xE200 + ticksPerFrame) % 256 == ticksPerFrame;
  }

  /** 25 frames per second at 40 ticks per frame: handleSmpte gives 85899336680, not 1000. */
  lemma SmpteAsWrittenExample()
    ensures HandleSmpte(0xE728).division == Some(85899336680)
    ensures SmpteTicksPerSecond(0xE728) == 1000
  {
  }

  // ---------------------------------------------------------------------
  // trackMetadata: the meta-event table and its payload decoders
  // ---------------------------------------------------------------------

  datatype MetaKind =
    | Text | Copyright | TrackName | Instrument | Lyric | Marker | CuePoint
    | EndOfTrack | SetTempo | TimeSignature | KeySignature

  /** `trackMetadata[subtype]`: the meta-event types the table knows. */
  function TrackMetadata(subtype: int): Option<MetaKind>
  {
    match subtype
    case 0x01 => Some(Text)
    case 0x02 => Some(Copyright)
    case 0x03 => Some(TrackName)
    case 0x04 => Some(Instrument)
    case 0x05 => Some(Lyric)
    case 0x06 => Some(Marker)
    case 0x07 => Some(CuePoint)
    case 0x2F => Some(EndOfTrack)
    case 0x51 => Some(SetTempo)
    case 0x58 => Some(TimeSignature)
    case 0x59 => Some(KeySignature)
    case _ => None
  }

  /** Only the end-of-track entry has a null handler. */
  predicate HasHandler(kind: MetaKind)
  {
    kind != EndOfTrack
  }

  /** What a payload decoder returns (the tempo's floating-point musicTempo is not modelled). */
  datatype MetaData =
    | TextData(text: string)
    | TempoData(midiTempo: int)
    | TimeSignatureData(numerator: Option<Byte>, denominator: Option<nat>,
                        clocksPerBeat: Option<Byte>, notated32ndNotesPerQuarterNote: Option<Byte>)
    | KeySignatureData(key: Option<Byte>, minorKey: Option<Byte>)

  /** What parseTempo's midiTempo is: the payload as a big-endian number, in a 32-bit register. */
  function TempoValue(payload: seq<Byte>): int
  {
    Signed32(BigEndianFold(payload, 8) % TWO_32)
  }

  /** parseTempo: OR each byte in, shifting left by 8 between bytes. */
  method ParseTempo(payload: seq<Byte>) returns (midiTempo: int)
    ensures midiTempo == TempoValue(payload)
  {
    assert Pow2(8) == 256;
    var result := 0;
    var i := 0;
    while i < |payload|
      invariant 0 <= i <= |payload|
      invariant 0 <= result < TWO_32
      invariant i < |payload| ==> result == ((BigEndianFold(payload[..i], 8) % TWO_32) * 256) % TWO_32
      invariant i == |payload| ==> result == BigEndianFold(payload, 8) % TWO_32
    {
      assert payload[..i + 1][..i] == payload[..i];
      ShiftInLowBits(BigEndianFold(payload[..i], 8) % TWO_32, BigEndianFold(payload[..i], 8), 8, payload[i]);
      // the low 8 bits are clear, so the OR is an addition
      result := result + payload[i];
      if i < |payload| - 1 {
        result := (result * 256) % TWO_32;
      }
      i := i + 1;
      if i == |payload| {
        assert payload[..i] == payload;
      }
    }
    midiTempo := Signed32(result);
  }

  lemma FoldOfThreeBytes(a: Byte, b: Byte, c: Byte)
    ensures BigEndianFold([a, b, c], 8) == (a * 256 + b) * 256 + c
  {
    assert Pow2(8) == 256;
    assert a % 256 == a && b % 256 == b && c % 256 == c;
    assert [a, b, c][..2] == [a, b];
    assert [a, b][..1] == [a];
    assert [a][..0] == [];
    assert BigEndianFold([a], 8) == BigEndianFold([], 8) * Pow2(8) + a % Pow2(8);
    assert BigEndianFold([a, b], 8) == BigEndianFold([a], 8) * Pow2(8) + b % Pow2(8);
    assert BigEndianFold([a, b, c], 8) == BigEndianFold([a, b], 8) * Pow2(8) + c % Pow2(8);
  }

  /** A three-byte payload (the set-tempo length) is read as a big-endian number, without wrapping. */
  lemma TempoOfThreeBytes(a: Byte, b: Byte, c: Byte)
    ensures TempoValue([a, b, c]) == a * 0x1_0000 + b * 0x100 + c
  {
    FoldOfThreeBytes(a, b, c);
    assert (a * 256 + b) * 256 + c <= 0xFF_FFFF;
  }

  /** 0x07A120 microseconds per quarter note is the default tempo, 120 beats per minute. */
  lemma DefaultTempo()
    ensures TempoValue([0x07, 0xA1, 0x20]) == 500000
  {
    TempoOfThreeBytes(0x07, 0xA1, 0x20);
  }

  /** parseTimeSignature: reads past the payload are undefined, and 2 ** undefined is NaN. */
  function ParseTimeSignature(payload: seq<Byte>): (r: MetaData)
    ensures r.TimeSignatureData?
    ensures |payload| >= 4 ==> r == TimeSignatureData(Some(payload[0]), Some(Pow2(payload[1])), Some(payload[2]), Some(payload[3]))
    ensures r.denominator.Some? <==> |payload| >= 2
  {
    TimeSignatureData(
      At(payload, 0),
      match At(payload, 1) case Some(e) => Some(Pow2(e)) case None => None,
      At(payload, 2),
      At(payload, 3))
  }

  /** parseKeySignature. */
  function ParseKeySignature(payload: seq<Byte>): (r: MetaData)
    ensures r.KeySignatureData?
    ensures |payload| >= 2 ==> r == KeySignatureData(Some(payload[0]), Some(payload[1]))
  {
    KeySignatureData(At(payload, 0), At(payload, 1))
  }

  /** What the handler of a meta-event type returns for a payload. */
  function MetaHandler(kind: MetaKind, payload: seq<Byte>): MetaData
    requires HasHandler(kind)
  {
    match kind
    case SetTempo => TempoData(TempoValue(payload))
    case TimeSignature => ParseTimeSignature(payload)
    case KeySignature => ParseKeySignature(payload)
    case _ => TextData(ParseText(payload))
  }

  /** Call the handler of a meta-event type. */
  method CallMetaHandler(kind: MetaKind, payload: seq<Byte>) returns (data: MetaData)
    requires HasHandler(kind)
    ensures data == MetaHandler(kind, payload)
  {
    match kind {
      case SetTempo =>
        var midiTempo := ParseTempo(payload);
        data := TempoData(midiTempo);
      case TimeSignature =>
        data := ParseTimeSignature(payload);
      case KeySignature =>
        data := ParseKeySignature(payload);
      case _ =>
        data := TextData(ParseText(payload));
    }
  }
}
