/**
 * parseTrack (assets/js/midi/track.js): one pass over the bytes of an MTrk
 * chunk that sorts each byte into a meta-event, a delta-time followed by a
 * channel message (with or without its status byte), or a byte held back
 * until a later byte says what it was.
 *
 * The pass is specified by `Step`, one iteration of the source's loop on an
 * explicit `ScanState`, and `Run`, the loop to the end of the track; the
 * method `ParseTrack` is the imperative loop, proved to compute `Run`.
 */
module TrackScan {
  import opened Wrappers
  import opened Bytes
  import opened MidiUtility
  import ParseQuantity

  // ---------------------------------------------------------------------
  // events
  // ---------------------------------------------------------------------

  /**
   * The fields createMessage sets after time, type and index: note-on and
   * note-off carry the note (each may be undefined, and pianoNote is NaN
   * when midiNote is); every other message carries its data bytes.
   */
  datatype EventBody =
    | Note(midiNote: Option<Byte>, pianoNote: Option<int>, velocity: Option<Byte>)
    | Data(data: seq<Byte>)

  datatype Event = Event(time: int, kind: MessageKind, index: nat, body: EventBody)

  /** resolveNote: the first data byte is the MIDI note, 20 above the piano key number. */
  function ResolveNote(data: seq<Byte>): (r: EventBody)
    ensures r.Note?
    ensures r.midiNote == At(data, 0) && r.velocity == At(data, 1)
    ensures r.pianoNote.Some? <==> r.midiNote.Some?
    ensures r.pianoNote.Some? ==> r.pianoNote.value == r.midiNote.value - 20
  {
    Note(At(data, 0),
         match At(data, 0) case Some(n) => Some(n - 20) case None => None,
         At(data, 1))
  }

  /**
   * createMessage: the message's data are the track bytes strictly between
   * dataIndexStart and dataIndexEnd (an end of 0 stands for the NaN end
   * index, which slices nothing).
   */
  function CreateMessage(track: seq<Byte>, kind: MessageKind, time: int, dataIndexStart: nat, dataIndexEnd: nat): (r: Event)
    ensures r.time == time && r.kind == kind && r.index == dataIndexStart
    ensures r.body.Note? <==> kind == NoteOff || kind == NoteOn
    ensures r.body.Note? ==> r.body.midiNote == (if dataIndexStart + 1 < Min(dataIndexEnd, |track|) then Some(track[dataIndexStart + 1]) else None)
    ensures r.body.Note? ==> r.body.velocity == (if dataIndexStart + 2 < Min(dataIndexEnd, |track|) then Some(track[dataIndexStart + 2]) else None)
    ensures r.body.Data? ==> r.body.data == JsSlice(track, dataIndexStart + 1, dataIndexEnd)
  {
    var data := JsSlice(track, dataIndexStart + 1, dataIndexEnd);
    var body := if kind == NoteOff || kind == NoteOn then ResolveNote(data) else Data(data);
    Event(time, kind, dataIndexStart, body)
  }

  // ---------------------------------------------------------------------
  // the scan as a state machine
  // ---------------------------------------------------------------------

  /** A stored meta-event: its type and what the type's handler returned. */
  datatype MetaEvent = MetaEvent(kind: MetaKind, data: MetaData)

  /** The object parseTrack returns: `music`, and one entry per meta-event subtype seen. */
  datatype ParsedTrack = ParsedTrack(music: seq<Event>, meta: map<Byte, MetaEvent>)

  /** The loop's variables: index, running status, held-back bytes, and the object being built. */
  datatype ScanState = ScanState(
    i: nat,
    runningStatus: Option<MessageKind>,
    tempArray: seq<Byte>,
    music: seq<Event>,
    meta: map<Byte, MetaEvent>)

  function InitialState(): ScanState
  {
    ScanState(0, None, [], [], map[])
  }

  /** The nibble `track[i] >> 4`, where `undefined >> 4` is 0. */
  function StatusNibble(track: seq<Byte>, i: nat): nat
  {
    match At(track, i) case Some(b) => b / 16 case None => 0
  }

  /** A 0xFF byte followed by a subtype trackMetadata knows. */
  predicate IsMetaStart(track: seq<Byte>, i: nat)
    requires i < |track|
  {
    track[i] == TRACK_META_DATA_STARTING_BYTE && i + 1 < |track| && TrackMetadata(track[i + 1]).Some?
  }

  /** A byte below 128 not followed by 0xFF is read as the last byte of a delta-time. */
  predicate IsDeltaEnd(track: seq<Byte>, i: nat)
    requires i < |track|
  {
    track[i] < 128 && At(track, i + 1) != Some(TRACK_META_DATA_STARTING_BYTE)
  }

  /**
   * The payload of the meta-event whose 0xFF is at i: the byte after the
   * subtype gives its length. When that byte is past the end it is
   * undefined and the slice is empty.
   */
  function MetaPayload(track: seq<Byte>, i: nat): seq<Byte>
  {
    if i + 2 < |track| then JsSlice(track, i + 3, i + track[i + 2] + 3) else []
  }

  /**
   * Where the scan resumes after a meta-event, the loop's `i++` included:
   * `messageLength + 1` bytes after the 0xFF, which is two bytes before the
   * payload's end, or past the end when the length is undefined (NaN).
   */
  function MetaIndexAfter(track: seq<Byte>, i: nat): (r: nat)
    requires i < |track|
    ensures i < r
  {
    if i + 2 < |track| then i + track[i + 2] + 1 else |track|
  }

  /**
   * A meta-event: store what its type's handler returns for the payload
   * under the subtype and skip the payload; the end-of-track type has no
   * handler and ends the loop.
   */
  function MetaStep(track: seq<Byte>, st: ScanState): (r: ScanState)
    requires st.i < |track| && IsMetaStart(track, st.i)
    ensures st.i < r.i
  {
    var metaEvent := track[st.i + 1];
    var kind := TrackMetadata(metaEvent).value;
    if !HasHandler(kind) then st.(i := |track|)
    else st.(i := MetaIndexAfter(track, st.i), tempArray := [],
             meta := st.meta[metaEvent := MetaEvent(kind, MetaHandler(kind, MetaPayload(track, st.i)))])
  }

  /** The delta-time that ends at i, the held-back bytes being its first bytes. */
  function DeltaTime(track: seq<Byte>, st: ScanState): int
    requires st.i < |track|
  {
    ParseQuantity.VlqValue(st.tempArray + [track[st.i]])
  }

  /** A delta-time followed by a status byte the midiMessage table knows. */
  function ExplicitStatusStep(track: seq<Byte>, st: ScanState, kind: MessageKind): (r: ScanState)
    requires st.i < |track|
    ensures st.i < r.i
  {
    var i := st.i;
    match DataBytes(kind)
    case Some(dataBytes) =>
      st.(i := i + dataBytes + 2, runningStatus := Some(kind), tempArray := [],
          music := st.music + [CreateMessage(track, kind, DeltaTime(track, st), i + 1, i + dataBytes + 2)])
    case None =>
      st.(i := |track|, runningStatus := Some(kind), tempArray := [],
          music := st.music + [CreateMessage(track, kind, DeltaTime(track, st), i + 1, 0)])
  }

  /** A delta-time followed directly by data bytes: the running status supplies the message type. */
  function RunningStatusStep(track: seq<Byte>, st: ScanState, kind: MessageKind): (r: ScanState)
    requires st.i < |track|
    ensures st.i < r.i
  {
    var i := st.i;
    match DataBytes(kind)
    case Some(dataBytes) =>
      st.(i := i + dataBytes + 1, tempArray := [],
          music := st.music + [CreateMessage(track, kind, DeltaTime(track, st), i, i + dataBytes + 1)])
    case None =>
      st.(i := |track|, tempArray := [],
          music := st.music + [CreateMessage(track, kind, DeltaTime(track, st), i, 0)])
  }

  /** The end of a delta-time: read the message after it, or drop the time when there is none. */
  function DeltaStep(track: seq<Byte>, st: ScanState): (r: ScanState)
    requires st.i < |track|
    ensures st.i < r.i
  {
    var i := st.i;
    match MidiMessage(StatusNibble(track, i + 1))
    case Some(kind) => ExplicitStatusStep(track, st, kind)
    case None =>
      if st.runningStatus.Some? && i < |track| - 1 then RunningStatusStep(track, st, st.runningStatus.value)
      else st.(i := i + 1, tempArray := [])
  }

  /**
   * One iteration of parseTrack's loop, including the loop's own `i++`.
   * Ending the loop (the end-of-track `break`, or an index that became NaN)
   * is an index of |track|.
   */
  function Step(track: seq<Byte>, st: ScanState): (r: ScanState)
    requires st.i < |track|
    ensures st.i < r.i
  {
    if IsMetaStart(track, st.i) then MetaStep(track, st)
    else if IsDeltaEnd(track, st.i) then DeltaStep(track, st)
    else st.(i := st.i + 1, tempArray := st.tempArray + [track[st.i]])
  }

  /** The loop run from a state to its end. */
  function Run(track: seq<Byte>, st: ScanState): (r: ScanState)
    ensures |track| <= r.i
    decreases |track| - st.i
  {
    if st.i >= |track| then st else Run(track, Step(track, st))
  }

  /** What parseTrack returns for a track. */
  function ParseTrackSpec(track: seq<Byte>): ParsedTrack
  {
    var final := Run(track, InitialState());
    ParsedTrack(final.music, final.meta)
  }

  lemma RunUnfold(track: seq<Byte>, st: ScanState)
    requires st.i < |track|
    ensures Run(track, st) == Run(track, Step(track, st))
  {
  }

  /** The loop from a state is the loop from the state one iteration leaves. */
  lemma RunStep(track: seq<Byte>, st: ScanState, next: ScanState)
    requires st.i < |track| && Step(track, st) == next
    ensures Run(track, st) == Run(track, next)
  {
    RunUnfold(track, st);
  }

  lemma RunDone(track: seq<Byte>, st: ScanState)
    requires |track| <= st.i
    ensures Run(track, st) == st
  {
  }

  /** The meta-event branch of the loop body. */
  method ReadMetaEvent(track: seq<Byte>, st: ScanState) returns (next: ScanState)
    requires st.i < |track| && IsMetaStart(track, st.i)
    ensures next == MetaStep(track, st)
  {
    var metaEvent := track[st.i + 1];
    var kind := TrackMetadata(metaEvent).value;
    // the end-of-track entry's handler is null on purpose: break
    if !HasHandler(kind) {
      return st.(i := |track|);
    }
    var data := CallMetaHandler(kind, MetaPayload(track, st.i));
    next := st.(i := MetaIndexAfter(track, st.i), tempArray := [], meta := st.meta[metaEvent := MetaEvent(kind, data)]);
  }

  /** A delta-time followed by a status byte: build the message from the bytes after the status byte. */
  method ReadExplicitStatus(track: seq<Byte>, st: ScanState, kind: MessageKind, time: int) returns (next: ScanState)
    requires st.i < |track| && time == DeltaTime(track, st)
    ensures next == ExplicitStatusStep(track, st, kind)
  {
    var dataIndexStart := st.i + 1;
    match DataBytes(kind) {
      case Some(dataBytes) =>
        var event := CreateMessage(track, kind, time, dataIndexStart, dataIndexStart + dataBytes + 1);
        next := ScanState(st.i + dataBytes + 2, Some(kind), [], st.music + [event], st.meta);
      case None =>
        // dataBytes is undefined: the end index, then i, become NaN
        var event := CreateMessage(track, kind, time, dataIndexStart, 0);
        next := ScanState(|track|, Some(kind), [], st.music + [event], st.meta);
    }
  }

  /** Running status: the status byte was left out, the last one is reused and the data start at i. */
  method ReadRunningStatus(track: seq<Byte>, st: ScanState, kind: MessageKind, time: int) returns (next: ScanState)
    requires st.i < |track| && time == DeltaTime(track, st)
    ensures next == RunningStatusStep(track, st, kind)
  {
    var dataIndexStart := st.i + 1;
    match DataBytes(kind) {
      case Some(dataBytes) =>
        var event := CreateMessage(track, kind, time, dataIndexStart - 1, dataIndexStart + dataBytes);
        next := st.(i := st.i + dataBytes + 1, tempArray := [], music := st.music + [event]);
      case None =>
        var event := CreateMessage(track, kind, time, dataIndexStart - 1, 0);
        next := st.(i := |track|, tempArray := [], music := st.music + [event]);
    }
  }

  /** The delta-time branch of the loop body. */
  method ReadDeltaTimeAndMessage(track: seq<Byte>, st: ScanState) returns (next: ScanState)
    requires st.i < |track| && IsDeltaEnd(track, st.i)
    ensures next == DeltaStep(track, st)
  {
    var i := st.i;
    var time := ParseQuantity.ParseVariableLengthValue(st.tempArray + [track[i]]);
    var potentialMidiMessage := StatusNibble(track, i + 1);
    match MidiMessage(potentialMidiMessage) {
      case Some(kind) =>
        next := ReadExplicitStatus(track, st, kind, time);
      case None =>
        if st.runningStatus.Some? && i < |track| - 1 {
          next := ReadRunningStatus(track, st, st.runningStatus.value, time);
        } else {
          next := st.(i := i + 1, tempArray := []);
        }
    }
  }

  /**
   * parseTrack. The record `st` holds the loop's variables; the `break` at
   * the end-of-track event and an index that became NaN both leave it at
   * the end of the track, which ends the loop.
   */
  method ParseTrack(track: seq<Byte>) returns (parsedTrack: ParsedTrack)
    ensures parsedTrack == ParseTrackSpec(track)
  {
    ghost var target := Run(track, InitialState());
    var st := InitialState();
    while st.i < |track|
      invariant Run(track, st) == target
      decreases |track| - st.i
    {
      var next: ScanState;
      if track[st.i] == TRACK_META_DATA_STARTING_BYTE && st.i + 1 < |track| && TrackMetadata(track[st.i + 1]).Some? {
        next := ReadMetaEvent(track, st);
      } else if track[st.i] < 128 && (st.i + 1 >= |track| || track[st.i + 1] != TRACK_META_DATA_STARTING_BYTE) {
        next := ReadDeltaTimeAndMessage(track, st);
      } else {
        // not yet known what this byte is: hold it back
        next := st.(i := st.i + 1, tempArray := st.tempArray + [track[st.i]]);
      }
      RunUnfold(track, st);
      st := next;
    }
    RunDone(track, st);
    parsedTrack := ParsedTrack(st.music, st.meta);
  }
}
