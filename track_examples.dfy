/**
 * What parseTrack (assets/js/midi/track.js) does with meta-events and with
 * delta-times that have no message type, stated on single iterations of
 * the scan, a whole track on which the resume point after a meta-event
 * shows (the last two bytes of a text payload are scanned again and read
 * as a note-on), and a well-formed track whose delta-time is taken for a
 * meta-event.
 */
module TrackExamples {
  import opened Wrappers
  import opened Bytes
  import opened MidiUtility
  import opened TrackScan
  import ParseQuantity
  import TrackProperties

  /**
   * A meta-event whose type has a handler stores the handler's result for
   * the `messageLength` bytes after the length byte under its subtype,
   * replacing an earlier event of that subtype, leaves the music alone and
   * resumes `messageLength + 1` bytes after the 0xFF.
   */
  lemma MetaStored(track: seq<Byte>, st: ScanState)
    requires st.i + 2 < |track| && IsMetaStart(track, st.i)
    requires HasHandler(TrackMetadata(track[st.i + 1]).value)
    ensures var kind := TrackMetadata(track[st.i + 1]).value;
      var r := Step(track, st);
      && r.meta == st.meta[track[st.i + 1] := MetaEvent(kind, MetaHandler(kind, JsSlice(track, st.i + 3, st.i + 3 + track[st.i + 2])))]
      && r.i == st.i + track[st.i + 2] + 1
      && r.music == st.music && r.runningStatus == st.runningStatus && r.tempArray == []
  {
    assert Step(track, st) == MetaStep(track, st);
    assert MetaPayload(track, st.i) == JsSlice(track, st.i + 3, st.i + 3 + track[st.i + 2]);
  }

  /**
   * A delta-time followed by a data byte while there is no running status
   * yet: no event is made, and the time and the bytes held back are dropped.
   */
  lemma StatuslessDeltaDropped(track: seq<Byte>, st: ScanState)
    requires st.i + 1 < |track| && track[st.i] < 0x80 && track[st.i + 1] < 0x80
    requires st.runningStatus == None
    ensures Step(track, st) == st.(i := st.i + 1, tempArray := [])
  {
    assert !IsMetaStart(track, st.i) && IsDeltaEnd(track, st.i);
    assert MidiMessage(StatusNibble(track, st.i + 1)).None?;
  }

  /** A text event "A", 0x00, 0x90, the bytes 0x3C 0x40, then the end-of-track event. */
  const RESCANNED: seq<Byte> := [0xFF, 0x01, 0x03, 0x41, 0x00, 0x90, 0x3C, 0x40, 0x00, 0xFF, 0x2F, 0x00]

  /** The note-on parseTrack reads from the last two bytes of the text payload and the two bytes after it. */
  const HIDDEN_NOTE: Event := Event(0, NoteOn, 5, Note(Some(0x3C), Some(0x28), Some(0x40)))

  /**
   * The scan resumes at byte 4, inside the text payload: 0x00 is read as a
   * delta-time and 0x90 as a note-on status, so the track yields a note-on
   * of note 0x3C, velocity 0x40 besides the text event.
   */
  lemma PayloadRescanned()
    ensures ParseTrackSpec(RESCANNED).music == [HIDDEN_NOTE]
    ensures ParseTrackSpec(RESCANNED).meta == map[0x01 := MetaEvent(Text, TextData(ParseText([0x41, 0x00, 0x90])))]
  {
    var track := RESCANNED;
    var s0 := InitialState();
    var text := MetaEvent(Text, TextData(ParseText([0x41, 0x00, 0x90])));
    var s1 := ScanState(4, None, [], [], map[0x01 := text]);
    TextStep(s0, s1);
    var s2 := ScanState(8, Some(NoteOn), [], [HIDDEN_NOTE], map[0x01 := text]);
    NoteStep(s1, s2);
    TailSteps(s2);
  }

  /** The 0x00 before the end-of-track event is held back, and the end-of-track event stops the scan. */
  lemma TailSteps(s2: ScanState)
    requires s2.i == 8 && s2.tempArray == []
    ensures Run(RESCANNED, s2) == s2.(i := 12, tempArray := [0x00])
  {
    var s3 := s2.(i := 9, tempArray := [0x00]);
    assert Step(RESCANNED, s2) == s3;
    RunStep(RESCANNED, s2, s3);
    var s4 := s3.(i := 12);
    assert Step(RESCANNED, s3) == s4;
    RunStep(RESCANNED, s3, s4);
    RunDone(RESCANNED, s4);
  }

  /** The text event at byte 0. */
  lemma TextStep(s0: ScanState, s1: ScanState)
    requires s0 == InitialState()
    requires s1 == ScanState(4, None, [], [], map[0x01 := MetaEvent(Text, TextData(ParseText([0x41, 0x00, 0x90])))])
    ensures Run(RESCANNED, s0) == Run(RESCANNED, s1)
  {
    assert JsSlice(RESCANNED, 3, 6) == [0x41, 0x00, 0x90];
    assert Step(RESCANNED, s0) == s1;
    RunStep(RESCANNED, s0, s1);
  }

  /** The delta-time 0x00 at byte 4 and the note-on status after it. */
  lemma NoteStep(s1: ScanState, s2: ScanState)
    requires s1.i == 4 && s1.runningStatus == None && s1.tempArray == []
    requires s2 == s1.(i := 8, runningStatus := Some(NoteOn), music := s1.music + [HIDDEN_NOTE])
    ensures Run(RESCANNED, s1) == Run(RESCANNED, s2)
  {
    ParseQuantity.SingleByteUnshifted(0);
    assert DeltaTime(RESCANNED, s1) == 0;
    assert MidiMessage(StatusNibble(RESCANNED, 5)) == Some(NoteOn);
    assert CreateMessage(RESCANNED, NoteOn, 0, 5, 8) == HIDDEN_NOTE;
    assert Step(RESCANNED, s1) == s2;
    RunStep(RESCANNED, s1, s2);
  }

  /** A note-on on channel 0 at delta-time 0x3F81, whose variable-length encoding is FF 01. */
  const MISREAD_NOTE: TrackProperties.ChannelMessage := TrackProperties.ChannelMessage(0x3F81, NoteOn, 0, [0x3C, 0x40])

  /** That note-on, written with its status byte, then the end-of-track event. */
  const MISREAD: seq<Byte> := [0xFF, 0x01, 0x90, 0x3C, 0x40, 0x00, 0xFF, 0x2F, 0x00]

  /**
   * A track a sequencer may write is misread: the delta-time 0x3F81 is
   * encoded FF 01, which the scan takes for a text event of length 0x90.
   * That event swallows the rest of the track, so the note-on is never
   * heard. The message is valid in every respect but the delta-time.
   */
  lemma DeltaMisread()
    ensures MISREAD == TrackProperties.EncodeMessage(MISREAD_NOTE, None) + TrackProperties.END_OF_TRACK
    ensures var m := MISREAD_NOTE;
      && m.kind != SystemMessage && m.channel < 16 && DataBytes(m.kind) == Some(|m.data|)
      && m.data[0] < 0x80 && m.data[1] < 0x80 && m.delta <= 0x0FFF_FFFF
      && !TrackProperties.SafeDelta(m.delta)
    ensures ParseTrackSpec(MISREAD).music == []
    ensures ParseTrackSpec(MISREAD).meta == map[0x01 := MetaEvent(Text, TextData(ParseText([0x3C, 0x40, 0x00, 0xFF, 0x2F, 0x00])))]
  {
    assert ParseQuantity.EncodeVlq(0x3F81) == [0xFF, 0x01];
    assert TrackProperties.StatusByte(MISREAD_NOTE) == 0x90;
    var s0 := InitialState();
    var s1 := ScanState(0x91, None, [], [], map[0x01 := MetaEvent(Text, TextData(ParseText([0x3C, 0x40, 0x00, 0xFF, 0x2F, 0x00])))]);
    assert JsSlice(MISREAD, 3, 0x93) == [0x3C, 0x40, 0x00, 0xFF, 0x2F, 0x00];
    assert Step(MISREAD, s0) == s1;
    RunStep(MISREAD, s0, s1);
    RunDone(MISREAD, s1);
  }
}
