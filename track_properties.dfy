/**
 * What parseTrack guarantees about its result: the invariant the scan keeps,
 * the round trip for tracks made of channel messages, and two tracks on
 * which the byte-by-byte classification goes astray.
 */
module TrackProperties {
  import opened Wrappers
  import opened Bytes
  import opened MidiUtility
  import opened TrackScan
  import ParseQuantity

  // ---------------------------------------------------------------------
  // the scan invariant
  // ---------------------------------------------------------------------

  /** The end index createMessage is given for an event of this kind at this index (0 for NaN). */
  function MessageEnd(kind: MessageKind, index: nat): nat
  {
    match DataBytes(kind) case Some(dataBytes) => index + dataBytes + 1 case None => 0
  }

  /** An event whose fields are read from the track bytes right after its index. */
  predicate EventReadsTrack(track: seq<Byte>, e: Event)
  {
    e.index < |track| && e == CreateMessage(track, e.kind, e.time, e.index, MessageEnd(e.kind, e.index))
  }

  /**
   * Events come in track order, behind the scan position, each read from
   * its own bytes; every stored meta-event sits under its own subtype.
   */
  predicate WellScanned(track: seq<Byte>, st: ScanState)
  {
    && (forall k :: 0 <= k < |st.music| ==> EventReadsTrack(track, st.music[k]) && st.music[k].index < st.i)
    && (forall k, l :: 0 <= k < l < |st.music| ==> st.music[k].index < st.music[l].index)
    && (forall t :: t in st.meta ==> TrackMetadata(t) == Some(st.meta[t].kind) && HasHandler(st.meta[t].kind))
  }

  lemma AppendKeepsWellScanned(track: seq<Byte>, st: ScanState, e: Event, next: ScanState)
    requires WellScanned(track, st)
    requires EventReadsTrack(track, e) && st.i <= e.index < next.i
    requires next.music == st.music + [e] && next.meta == st.meta
    ensures WellScanned(track, next)
  {
  }

  lemma MetaStepKeepsWellScanned(track: seq<Byte>, st: ScanState)
    requires st.i < |track| && IsMetaStart(track, st.i) && WellScanned(track, st)
    ensures WellScanned(track, MetaStep(track, st))
  {
  }

  /** A message read after its status byte adds one event, read from the bytes after its index. */
  lemma ExplicitStepAppends(track: seq<Byte>, st: ScanState, kind: MessageKind)
    requires st.i + 1 < |track|
    ensures var next := ExplicitStatusStep(track, st, kind);
      var e := CreateMessage(track, kind, DeltaTime(track, st), st.i + 1, MessageEnd(kind, st.i + 1));
      && next.music == st.music + [e] && next.meta == st.meta
      && EventReadsTrack(track, e) && st.i <= e.index < next.i
  {
  }

  lemma ExplicitStepKeepsWellScanned(track: seq<Byte>, st: ScanState, kind: MessageKind)
    requires st.i + 1 < |track| && WellScanned(track, st)
    ensures WellScanned(track, ExplicitStatusStep(track, st, kind))
  {
    ExplicitStepAppends(track, st, kind);
    AppendKeepsWellScanned(track, st, CreateMessage(track, kind, DeltaTime(track, st), st.i + 1, MessageEnd(kind, st.i + 1)),
      ExplicitStatusStep(track, st, kind));
  }

  /** A message under running status adds one event, read from the bytes after its index. */
  lemma RunningStepAppends(track: seq<Byte>, st: ScanState, kind: MessageKind)
    requires st.i < |track|
    ensures var next := RunningStatusStep(track, st, kind);
      var e := CreateMessage(track, kind, DeltaTime(track, st), st.i, MessageEnd(kind, st.i));
      && next.music == st.music + [e] && next.meta == st.meta
      && EventReadsTrack(track, e) && st.i <= e.index < next.i
  {
  }

  lemma RunningStepKeepsWellScanned(track: seq<Byte>, st: ScanState, kind: MessageKind)
    requires st.i < |track| && WellScanned(track, st)
    ensures WellScanned(track, RunningStatusStep(track, st, kind))
  {
    RunningStepAppends(track, st, kind);
    AppendKeepsWellScanned(track, st, CreateMessage(track, kind, DeltaTime(track, st), st.i, MessageEnd(kind, st.i)),
      RunningStatusStep(track, st, kind));
  }

  lemma DeltaStepKeepsWellScanned(track: seq<Byte>, st: ScanState)
    requires st.i < |track| && WellScanned(track, st)
    ensures WellScanned(track, DeltaStep(track, st))
  {
    var i := st.i;
    match MidiMessage(StatusNibble(track, i + 1)) {
      case Some(kind) =>
        assert At(track, i + 1).Some?;
        ExplicitStepKeepsWellScanned(track, st, kind);
      case None =>
        if st.runningStatus.Some? && i < |track| - 1 {
          RunningStepKeepsWellScanned(track, st, st.runningStatus.value);
        }
    }
  }

  lemma StepKeepsWellScanned(track: seq<Byte>, st: ScanState)
    requires st.i < |track| && WellScanned(track, st)
    ensures WellScanned(track, Step(track, st))
  {
    if IsMetaStart(track, st.i) {
      MetaStepKeepsWellScanned(track, st);
    } else if IsDeltaEnd(track, st.i) {
      DeltaStepKeepsWellScanned(track, st);
    }
  }

  lemma {:induction false} RunKeepsWellScanned(track: seq<Byte>, st: ScanState)
    requires WellScanned(track, st)
    ensures WellScanned(track, Run(track, st))
    decreases |track| - st.i
  {
    if st.i < |track| {
      StepKeepsWellScanned(track, st);
      RunKeepsWellScanned(track, Step(track, st));
    }
  }

  /**
   * parseTrack's music lists its events in the order of their positions in
   * the track; each note-on and note-off takes its note and velocity from
   * the two bytes after its index, every other message its dataBytes bytes;
   * each meta-event is stored under its own subtype, and never the
   * end-of-track one.
   */
  lemma ParseTrackWellFormed(track: seq<Byte>)
    ensures var p := ParseTrackSpec(track);
      && (forall k :: 0 <= k < |p.music| ==> EventReadsTrack(track, p.music[k]))
      && (forall k, l :: 0 <= k < l < |p.music| ==> p.music[k].index < p.music[l].index)
      && (forall t :: t in p.meta ==> TrackMetadata(t) == Some(p.meta[t].kind) && p.meta[t].kind != EndOfTrack)
  {
    RunKeepsWellScanned(track, InitialState());
  }

  // ---------------------------------------------------------------------
  // round trip for channel messages
  // ---------------------------------------------------------------------

  /** A channel message as a sequencer writes it: delta-time, type, channel, data bytes. */
  datatype ChannelMessage = ChannelMessage(delta: nat, kind: MessageKind, channel: nat, data: seq<Byte>)

  /** No 0xFF byte of the delta-time is followed by a subtype trackMetadata knows. */
  predicate DeltaSafe(vlq: seq<Byte>)
  {
    forall j :: 0 <= j < |vlq| - 1 && vlq[j] == TRACK_META_DATA_STARTING_BYTE ==> TrackMetadata(vlq[j + 1]).None?
  }

  /**
   * The same condition on the delta-time itself: it takes one byte, or its
   * next-to-last seven-bit group is not 0x7F (which would be written 0xFF),
   * or its last group is not a meta subtype.
   */
  predicate SafeDelta(delta: nat)
  {
    delta < 128 || (delta / 128) % 128 != 0x7F || TrackMetadata(delta % 128).None?
  }

  lemma SafeDeltaEncodes(delta: nat)
    ensures DeltaSafe(ParseQuantity.EncodeVlq(delta)) <==> SafeDelta(delta)
  {
    var vlq := ParseQuantity.EncodeVlq(delta);
    if delta >= 128 {
      var c := ParseQuantity.ContinuationBytes(delta / 128);
      assert vlq == c + [delta % 128];
      assert vlq[|c| - 1] == (delta / 128) % 128 + 128 && vlq[|c|] == delta % 128;
      if SafeDelta(delta) {
        forall j | 0 <= j < |vlq| - 1 && vlq[j] == TRACK_META_DATA_STARTING_BYTE
          ensures TrackMetadata(vlq[j + 1]).None?
        {
          if j < |c| - 1 {
            assert vlq[j + 1] == c[j + 1] >= 0x80;
          }
        }
      }
    }
  }

  predicate ValidMessage(m: ChannelMessage)
  {
    && m.kind != SystemMessage
    && m.channel < 16
    && DataBytes(m.kind) == Some(|m.data|)
    && (forall k :: 0 <= k < |m.data| ==> m.data[k] < 0x80)
    && m.delta <= 0x0FFF_FFFF
    && SafeDelta(m.delta)
  }

  predicate AllValid(msgs: seq<ChannelMessage>)
  {
    forall k :: 0 <= k < |msgs| ==> ValidMessage(msgs[k])
  }

  function StatusByte(m: ChannelMessage): Byte
    requires m.kind != SystemMessage && m.channel < 16
  {
    KindNibble(m.kind) * 16 + m.channel
  }

  /** One message; the status byte is left out when it repeats the previous one (running status). */
  function EncodeMessage(m: ChannelMessage, previous: Option<Byte>): seq<Byte>
    requires m.kind != SystemMessage && m.channel < 16
  {
    ParseQuantity.EncodeVlq(m.delta)
      + (if previous == Some(StatusByte(m)) then [] else [StatusByte(m)])
      + m.data
  }

  function EncodeMessages(msgs: seq<ChannelMessage>, previous: Option<Byte>): seq<Byte>
    requires AllValid(msgs)
  {
    if |msgs| == 0 then []
    else EncodeMessage(msgs[0], previous) + EncodeMessages(msgs[1..], Some(StatusByte(msgs[0])))
  }

  /** Delta-time 0, then the end-of-track meta-event. */
  const END_OF_TRACK: seq<Byte> := [0x00, 0xFF, 0x2F, 0x00]

  function EncodeTrack(msgs: seq<ChannelMessage>): seq<Byte>
    requires AllValid(msgs)
  {
    EncodeMessages(msgs, None) + END_OF_TRACK
  }

  /** An event without its index: what a listener hears. */
  datatype Heard = Heard(time: int, kind: MessageKind, body: EventBody)

  function Heards(events: seq<Event>): (r: seq<Heard>)
    ensures |r| == |events|
    ensures forall k :: 0 <= k < |events| ==> r[k] == Heard(events[k].time, events[k].kind, events[k].body)
  {
    if |events| == 0 then []
    else Heards(events[..|events| - 1]) + [Heard(events[|events| - 1].time, events[|events| - 1].kind, events[|events| - 1].body)]
  }

  /** The event a message should come out as: a note, or its data bytes. */
  function Expected(m: ChannelMessage): Heard
    requires ValidMessage(m)
  {
    var body :=
      if m.kind == NoteOn || m.kind == NoteOff then Note(Some(m.data[0]), Some(m.data[0] as int - 20), Some(m.data[1]))
      else Data(m.data);
    Heard(m.delta, m.kind, body)
  }

  /** The events a sequence of messages should come out as, in order. */
  function ExpectedAll(msgs: seq<ChannelMessage>): (r: seq<Heard>)
    requires AllValid(msgs)
    ensures |r| == |msgs|
    ensures forall k :: 0 <= k < |msgs| ==> r[k] == Expected(msgs[k])
  {
    if |msgs| == 0 then [] else [Expected(msgs[0])] + ExpectedAll(msgs[1..])
  }

  /** The bytes of a delta-time, from `pos`, with the continuation bytes all at least 0x80. */
  predicate DeltaAt(track: seq<Byte>, pos: nat, vlq: seq<Byte>)
  {
    && 1 <= |vlq| && BytesAt(track, pos, vlq)
    && (forall q :: 0 <= q < |vlq| - 1 ==> vlq[q] >= 0x80)
    && DeltaSafe(vlq)
  }

  /** A byte the scan holds back for the next delta-time: neither a meta-event start nor a delta-time end. */
  predicate Held(track: seq<Byte>, k: nat)
    requires k < |track|
  {
    !IsMetaStart(track, k) && !IsDeltaEnd(track, k)
  }

  /** A held byte only joins tempArray. */
  lemma HeldStep(track: seq<Byte>, st: ScanState)
    requires st.i < |track| && Held(track, st.i)
    ensures Step(track, st) == st.(i := st.i + 1, tempArray := st.tempArray + [track[st.i]])
  {
  }

  lemma HoldStep(track: seq<Byte>, st: ScanState)
    requires st.i < |track| && Held(track, st.i)
    ensures Run(track, st) == Run(track, st.(i := st.i + 1, tempArray := st.tempArray + [track[st.i]]))
  {
    HeldStep(track, st);
    RunStep(track, st, st.(i := st.i + 1, tempArray := st.tempArray + [track[st.i]]));
  }

  /** One held byte, then the bytes after it, is the run of bytes from the held one. */
  lemma HeldThenRest(track: seq<Byte>, held: seq<Byte>, i: nat, e: nat)
    requires i < e <= |track|
    ensures (held + [track[i]]) + track[i + 1..e] == held + track[i..e]
  {
    assert track[i..e] == [track[i]] + track[i + 1..e];
  }

  /** Held bytes pile up in tempArray, one step per byte. */
  lemma {:induction false} HoldScan(track: seq<Byte>, st: ScanState, e: nat)
    requires st.i <= e <= |track| && forall k :: st.i <= k < e ==> Held(track, k)
    ensures Run(track, st) == Run(track, st.(i := e, tempArray := st.tempArray + track[st.i..e]))
    decreases e - st.i
  {
    if st.i < e {
      var next := st.(i := st.i + 1, tempArray := st.tempArray + [track[st.i]]);
      HoldStep(track, st);
      HoldScan(track, next, e);
      HeldThenRest(track, st.tempArray, st.i, e);
    } else {
      assert st.tempArray + track[st.i..e] == st.tempArray;
    }
  }

  /** The continuation bytes of a delta-time are all held back. */
  lemma ContinuationHeld(track: seq<Byte>, pos: nat, vlq: seq<Byte>)
    requires DeltaAt(track, pos, vlq)
    ensures forall k :: pos <= k < pos + |vlq| - 1 ==> Held(track, k)
  {
    forall k | pos <= k < pos + |vlq| - 1
      ensures Held(track, k)
    {
      assert track[k] == vlq[k - pos] && track[k + 1] == vlq[k - pos + 1];
    }
  }

  /** The track holds `bytes` from `pos` on. */
  predicate BytesAt(track: seq<Byte>, pos: nat, bytes: seq<Byte>)
  {
    pos + |bytes| <= |track| && track[pos..pos + |bytes|] == bytes
  }

  /** Bytes that read as `a + b` from `pos` read as `a`, then as `b`. */
  lemma BytesSplit(track: seq<Byte>, pos: nat, a: seq<Byte>, b: seq<Byte>)
    requires BytesAt(track, pos, a + b)
    ensures BytesAt(track, pos, a) && BytesAt(track, pos + |a|, b)
  {
    assert track[pos..pos + |a|] == track[pos..pos + |a + b|][..|a|];
    assert track[pos + |a|..pos + |a| + |b|] == track[pos..pos + |a + b|][|a|..];
  }

  /** The bytes of one encoded message in the track, from `pos`. */
  predicate MessageAt(track: seq<Byte>, pos: nat, m: ChannelMessage, previous: Option<Byte>)
    requires m.kind != SystemMessage && m.channel < 16
  {
    BytesAt(track, pos, EncodeMessage(m, previous))
  }

  /** The running status matches the previous status byte written. */
  predicate StatusAgrees(st: ScanState, previous: Option<Byte>)
  {
    previous.Some? ==> previous.value / 16 < 0xF && st.runningStatus == MidiMessage(previous.value / 16)
  }

  lemma DeltaTimeRead(track: seq<Byte>, st: ScanState, vlq: seq<Byte>, delta: nat)
    requires delta <= 0x0FFF_FFFF && vlq == ParseQuantity.EncodeVlq(delta)
    requires st.tempArray == vlq[..|vlq| - 1] && |vlq| >= 1 && st.i < |track| && track[st.i] == vlq[|vlq| - 1]
    ensures DeltaTime(track, st) == delta
  {
    ParseQuantity.VlqRoundTrip(delta);
    assert vlq[..|vlq| - 1] + [vlq[|vlq| - 1]] == vlq;
  }

  /** The event createMessage builds from a message's data bytes, found after `index`. */
  lemma MessageHeard(track: seq<Byte>, m: ChannelMessage, index: nat)
    requires ValidMessage(m)
    requires BytesAt(track, index + 1, m.data)
    ensures var e := CreateMessage(track, m.kind, m.delta, index, index + |m.data| + 1);
      Heard(e.time, e.kind, e.body) == Expected(m)
  {
    var e := CreateMessage(track, m.kind, m.delta, index, index + |m.data| + 1);
    assert JsSlice(track, index + 1, index + |m.data| + 1) == m.data;
    if e.body.Note? {
      assert m.data[0] == track[index + 1] && m.data[1] == track[index + 2];
    }
  }

  /** A byte below 0x80 followed by one below 0x80 ends a delta-time. */
  lemma DeltaEndStep(track: seq<Byte>, here: ScanState)
    requires here.i + 1 < |track| && track[here.i] < 0x80 && track[here.i + 1] != TRACK_META_DATA_STARTING_BYTE
    ensures Step(track, here) == DeltaStep(track, here)
  {
    assert !IsMetaStart(track, here.i) && IsDeltaEnd(track, here.i);
  }

  /** A delta-time followed by a data byte: the running status gives the type. */
  lemma RunningStep(track: seq<Byte>, here: ScanState, m: ChannelMessage)
    requires m.kind != SystemMessage && DataBytes(m.kind) == Some(|m.data|) && here.runningStatus == Some(m.kind)
    requires here.i + 1 < |track| && track[here.i] < 0x80 && track[here.i + 1] < 0x80
    requires DeltaTime(track, here) == m.delta
    ensures Step(track, here) ==
      here.(i := here.i + |m.data| + 1, tempArray := [],
            music := here.music + [CreateMessage(track, m.kind, m.delta, here.i, here.i + |m.data| + 1)])
  {
    DeltaEndStep(track, here);
    assert StatusNibble(track, here.i + 1) < 8;
  }

  /** A delta-time followed by a status byte: the table gives the type. */
  lemma ExplicitStep(track: seq<Byte>, here: ScanState, m: ChannelMessage)
    requires ValidMessage(m)
    requires here.i + 1 < |track| && track[here.i] < 0x80 && track[here.i + 1] == StatusByte(m)
    requires DeltaTime(track, here) == m.delta
    ensures Step(track, here) ==
      here.(i := here.i + |m.data| + 2, runningStatus := Some(m.kind), tempArray := [],
            music := here.music + [CreateMessage(track, m.kind, m.delta, here.i + 1, here.i + |m.data| + 2)])
  {
    DeltaEndStep(track, here);
    StatusByteRead(track, here.i + 1, m);
  }

  /** The midiMessage table reads a status byte as the type it was written for. */
  lemma StatusByteRead(track: seq<Byte>, i: nat, m: ChannelMessage)
    requires m.kind != SystemMessage && m.channel < 16
    requires i < |track| && track[i] == StatusByte(m)
    ensures MidiMessage(StatusNibble(track, i)) == Some(m.kind)
  {
    KindNibbleRoundTrip(m.kind);
    assert StatusNibble(track, i) == KindNibble(m.kind);
  }

  /** RunningStep, as the rest of the scan sees it. */
  lemma RunningRun(track: seq<Byte>, here: ScanState, m: ChannelMessage, next: ScanState)
    requires m.kind != SystemMessage && DataBytes(m.kind) == Some(|m.data|) && here.runningStatus == Some(m.kind)
    requires here.i + 1 < |track| && track[here.i] < 0x80 && track[here.i + 1] < 0x80
    requires DeltaTime(track, here) == m.delta
    requires next == here.(i := here.i + |m.data| + 1, tempArray := [],
                           music := here.music + [CreateMessage(track, m.kind, m.delta, here.i, here.i + |m.data| + 1)])
    ensures Run(track, here) == Run(track, next)
  {
    RunningStep(track, here, m);
    RunUnfold(track, here);
  }

  /** ExplicitStep, as the rest of the scan sees it. */
  lemma ExplicitRun(track: seq<Byte>, here: ScanState, m: ChannelMessage, next: ScanState)
    requires ValidMessage(m)
    requires here.i + 1 < |track| && track[here.i] < 0x80 && track[here.i + 1] == StatusByte(m)
    requires DeltaTime(track, here) == m.delta
    requires next == here.(i := here.i + |m.data| + 2, runningStatus := Some(m.kind), tempArray := [],
                           music := here.music + [CreateMessage(track, m.kind, m.delta, here.i + 1, here.i + |m.data| + 2)])
    ensures Run(track, here) == Run(track, next)
  {
    ExplicitStep(track, here, m);
    RunUnfold(track, here);
  }

  /** Where the event for a message written at `pos` has its index. */
  function EventIndex(pos: nat, m: ChannelMessage, previous: Option<Byte>): nat
    requires ValidMessage(m)
  {
    var n := |ParseQuantity.EncodeVlq(m.delta)| - 1;
    if previous == Some(StatusByte(m)) then pos + n else pos + n + 1
  }

  /** The event parseTrack makes of a message written at `pos`. */
  function EventFor(track: seq<Byte>, pos: nat, m: ChannelMessage, previous: Option<Byte>): Event
    requires ValidMessage(m)
  {
    var index := EventIndex(pos, m, previous);
    CreateMessage(track, m.kind, m.delta, index, index + |m.data| + 1)
  }

  /** The scan state right after a message written at `st.i`. */
  function ScanAfter(track: seq<Byte>, st: ScanState, m: ChannelMessage, previous: Option<Byte>): ScanState
    requires ValidMessage(m)
  {
    st.(i := st.i + |EncodeMessage(m, previous)|, runningStatus := Some(m.kind), tempArray := [],
        music := st.music + [EventFor(track, st.i, m, previous)])
  }

  /** Bytes that read as `v` from `pos` read as `v` without its last byte up to one position earlier. */
  lemma SlicePrefix(track: seq<Byte>, pos: nat, v: seq<Byte>)
    requires 1 <= |v| && pos + |v| <= |track| && track[pos..pos + |v|] == v
    ensures track[pos..pos + |v| - 1] == v[..|v| - 1]
  {
    assert track[pos..pos + |v| - 1] == track[pos..pos + |v|][..|v| - 1];
  }

  /** Splitting the encoding of the first message off the encoding of them all. */
  lemma EncodeMessagesCons(msgs: seq<ChannelMessage>, previous: Option<Byte>)
    requires AllValid(msgs) && |msgs| > 0
    ensures EncodeMessages(msgs, previous) + END_OF_TRACK
      == EncodeMessage(msgs[0], previous) + (EncodeMessages(msgs[1..], Some(StatusByte(msgs[0]))) + END_OF_TRACK)
  {
    assert EncodeMessages(msgs, previous) == EncodeMessage(msgs[0], previous) + EncodeMessages(msgs[1..], Some(StatusByte(msgs[0])));
  }

  /** The delta-time of an encoded message sits at its start. */
  lemma VlqAt(track: seq<Byte>, pos: nat, m: ChannelMessage, previous: Option<Byte>)
    requires ValidMessage(m) && MessageAt(track, pos, m, previous)
    ensures BytesAt(track, pos, ParseQuantity.EncodeVlq(m.delta))
  {
    var vlq := ParseQuantity.EncodeVlq(m.delta);
    var rest := (if previous == Some(StatusByte(m)) then [] else [StatusByte(m)]) + m.data;
    assert EncodeMessage(m, previous) == vlq + rest;
    BytesSplit(track, pos, vlq, rest);
  }

  /** The byte at the end of a delta-time written at `pos`. */
  lemma LastByteAt(track: seq<Byte>, pos: nat, vlq: seq<Byte>)
    requires 1 <= |vlq| && BytesAt(track, pos, vlq)
    ensures track[pos + |vlq| - 1] == vlq[|vlq| - 1]
  {
    assert track[pos + |vlq| - 1] == track[pos..pos + |vlq|][|vlq| - 1];
  }

  /** The delta-time of an encoded message, continuation bytes first, sits at its start. */
  lemma VlqLayout(track: seq<Byte>, pos: nat, m: ChannelMessage, previous: Option<Byte>)
    requires ValidMessage(m) && MessageAt(track, pos, m, previous)
    ensures var vlq := ParseQuantity.EncodeVlq(m.delta);
      DeltaAt(track, pos, vlq) && track[pos + |vlq| - 1] == vlq[|vlq| - 1]
  {
    var vlq := ParseQuantity.EncodeVlq(m.delta);
    ParseQuantity.VlqRoundTrip(m.delta);
    SafeDeltaEncodes(m.delta);
    VlqAt(track, pos, m, previous);
    LastByteAt(track, pos, vlq);
  }

  /** The status byte (unless running status) and data bytes of an encoded message, up to and after its event index. */
  lemma DataLayout(track: seq<Byte>, pos: nat, m: ChannelMessage, previous: Option<Byte>)
    requires ValidMessage(m) && MessageAt(track, pos, m, previous)
    ensures var index := EventIndex(pos, m, previous);
      && |EncodeMessage(m, previous)| == index + 1 + |m.data| - pos
      && BytesAt(track, index + 1, m.data)
      && (previous != Some(StatusByte(m)) ==> track[index] == StatusByte(m))
  {
    var vlq := ParseQuantity.EncodeVlq(m.delta);
    if previous == Some(StatusByte(m)) {
      assert EncodeMessage(m, previous) == vlq + m.data;
      BytesSplit(track, pos, vlq, m.data);
    } else {
      var head := vlq + [StatusByte(m)];
      assert EncodeMessage(m, previous) == head + m.data;
      BytesSplit(track, pos, head, m.data);
      BytesSplit(track, pos, vlq, [StatusByte(m)]);
      assert track[pos + |vlq|] == track[pos + |vlq|..pos + |vlq| + 1][0];
    }
  }

  /** The event made of an encoded message is the one the message should come out as. */
  lemma MessageHeardAt(track: seq<Byte>, pos: nat, m: ChannelMessage, previous: Option<Byte>)
    requires ValidMessage(m) && MessageAt(track, pos, m, previous)
    ensures var e := EventFor(track, pos, m, previous); Heard(e.time, e.kind, e.body) == Expected(m)
  {
    var index := EventIndex(pos, m, previous);
    DataAfterIndex(track, pos, m, previous, index);
    MessageHeard(track, m, index);
    assert EventFor(track, pos, m, previous) == CreateMessage(track, m.kind, m.delta, index, index + |m.data| + 1);
  }

  /** The data bytes of an encoded message follow its event index. */
  lemma DataAfterIndex(track: seq<Byte>, pos: nat, m: ChannelMessage, previous: Option<Byte>, index: nat)
    requires ValidMessage(m) && MessageAt(track, pos, m, previous) && index == EventIndex(pos, m, previous)
    ensures BytesAt(track, index + 1, m.data)
  {
    DataLayout(track, pos, m, previous);
  }

  /** The scan state at the last byte of a message's delta-time. */
  function AtDeltaEnd(st: ScanState, m: ChannelMessage): ScanState
  {
    var vlq := ParseQuantity.EncodeVlq(m.delta);
    st.(i := st.i + |vlq| - 1, tempArray := vlq[..|vlq| - 1])
  }

  /** The continuation bytes of a message's delta-time are neither meta-event starts nor delta-time ends. */
  lemma DeltaContinuationHeld(track: seq<Byte>, pos: nat, m: ChannelMessage, previous: Option<Byte>)
    requires ValidMessage(m) && MessageAt(track, pos, m, previous)
    ensures forall k :: pos <= k < pos + |ParseQuantity.EncodeVlq(m.delta)| - 1 ==> Held(track, k)
  {
    VlqLayout(track, pos, m, previous);
    ContinuationHeld(track, pos, ParseQuantity.EncodeVlq(m.delta));
  }

  /** Holding back the continuation bytes of a message's delta-time leaves the scan at its last byte. */
  lemma DeltaHeldState(track: seq<Byte>, st: ScanState, m: ChannelMessage, previous: Option<Byte>, e: nat)
    requires ValidMessage(m) && MessageAt(track, st.i, m, previous) && st.tempArray == []
    requires e == st.i + |ParseQuantity.EncodeVlq(m.delta)| - 1
    ensures st.i <= e <= |track|
    ensures st.(i := e, tempArray := st.tempArray + track[st.i..e]) == AtDeltaEnd(st, m)
  {
    var vlq := ParseQuantity.EncodeVlq(m.delta);
    ParseQuantity.VlqRoundTrip(m.delta);
    VlqAt(track, st.i, m, previous);
    SlicePrefix(track, st.i, vlq);
    assert st.tempArray + track[st.i..e] == track[st.i..e];
  }

  /** The continuation bytes of a message's delta-time are held back until its last byte. */
  lemma DeltaScan(track: seq<Byte>, st: ScanState, m: ChannelMessage, previous: Option<Byte>)
    requires ValidMessage(m) && MessageAt(track, st.i, m, previous) && st.tempArray == []
    ensures Run(track, st) == Run(track, AtDeltaEnd(st, m))
  {
    var e := st.i + |ParseQuantity.EncodeVlq(m.delta)| - 1;
    DeltaContinuationHeld(track, st.i, m, previous);
    DeltaHeldState(track, st, m, previous, e);
    HoldScan(track, st, e);
  }

  /** At the last byte of a message's delta-time the scan reads the delta-time written. */
  lemma DeltaEndRead(track: seq<Byte>, st: ScanState, m: ChannelMessage, previous: Option<Byte>)
    requires ValidMessage(m) && MessageAt(track, st.i, m, previous)
    ensures var here := AtDeltaEnd(st, m);
      here.i < |track| && track[here.i] < 0x80 && DeltaTime(track, here) == m.delta
  {
    var vlq := ParseQuantity.EncodeVlq(m.delta);
    ParseQuantity.VlqRoundTrip(m.delta);
    VlqAt(track, st.i, m, previous);
    LastByteAt(track, st.i, vlq);
    DeltaTimeRead(track, AtDeltaEnd(st, m), vlq, m.delta);
  }

  /** The running status after the previous message is this message's type, when the status byte repeats. */
  lemma RunningStatusAgrees(st: ScanState, m: ChannelMessage, previous: Option<Byte>)
    requires ValidMessage(m) && previous == Some(StatusByte(m)) && StatusAgrees(st, previous)
    ensures st.runningStatus == Some(m.kind)
  {
    KindNibbleRoundTrip(m.kind);
    assert StatusByte(m) / 16 == KindNibble(m.kind);
  }

  /** Running status: the scan state after the message is ScanAfter's. */
  lemma RunningStateAfter(track: seq<Byte>, st: ScanState, m: ChannelMessage, previous: Option<Byte>)
    requires ValidMessage(m) && previous == Some(StatusByte(m)) && st.runningStatus == Some(m.kind)
    ensures var here := AtDeltaEnd(st, m);
      here.(i := here.i + |m.data| + 1, tempArray := [],
            music := here.music + [CreateMessage(track, m.kind, m.delta, here.i, here.i + |m.data| + 1)])
      == ScanAfter(track, st, m, previous)
  {
  }

  /** Explicit status: the scan state after the message is ScanAfter's. */
  lemma ExplicitStateAfter(track: seq<Byte>, st: ScanState, m: ChannelMessage, previous: Option<Byte>)
    requires ValidMessage(m) && previous != Some(StatusByte(m))
    ensures var here := AtDeltaEnd(st, m);
      here.(i := here.i + |m.data| + 2, runningStatus := Some(m.kind), tempArray := [],
            music := here.music + [CreateMessage(track, m.kind, m.delta, here.i + 1, here.i + |m.data| + 2)])
      == ScanAfter(track, st, m, previous)
  {
  }

  /** The bytes at the end of a message's delta-time: its last byte, then the first data byte. */
  lemma RunningLayout(track: seq<Byte>, st: ScanState, m: ChannelMessage, previous: Option<Byte>)
    requires ValidMessage(m) && MessageAt(track, st.i, m, previous) && previous == Some(StatusByte(m))
    ensures var here := AtDeltaEnd(st, m);
      && here.i + 1 < |track| && track[here.i] < 0x80 && track[here.i + 1] < 0x80
      && DeltaTime(track, here) == m.delta
  {
    var here := AtDeltaEnd(st, m);
    DeltaEndRead(track, st, m, previous);
    DataLayout(track, st.i, m, previous);
    assert track[here.i + 1] == m.data[0];
  }

  /** The bytes at the end of a message's delta-time: its last byte, then the status byte. */
  lemma ExplicitLayout(track: seq<Byte>, st: ScanState, m: ChannelMessage, previous: Option<Byte>)
    requires ValidMessage(m) && MessageAt(track, st.i, m, previous) && previous != Some(StatusByte(m))
    ensures var here := AtDeltaEnd(st, m);
      && here.i + 1 < |track| && track[here.i] < 0x80 && track[here.i + 1] == StatusByte(m)
      && DeltaTime(track, here) == m.delta
  {
    DeltaEndRead(track, st, m, previous);
    DataLayout(track, st.i, m, previous);
  }

  /** Running status: the data bytes after the delta-time are read with the previous type. */
  lemma RunningMessageScan(track: seq<Byte>, st: ScanState, m: ChannelMessage, previous: Option<Byte>)
    requires ValidMessage(m) && previous == Some(StatusByte(m)) && st.runningStatus == Some(m.kind)
    requires var here := AtDeltaEnd(st, m);
      && here.i + 1 < |track| && track[here.i] < 0x80 && track[here.i + 1] < 0x80
      && DeltaTime(track, here) == m.delta
    requires var here := AtDeltaEnd(st, m);
      here.(i := here.i + |m.data| + 1, tempArray := [],
            music := here.music + [CreateMessage(track, m.kind, m.delta, here.i, here.i + |m.data| + 1)])
      == ScanAfter(track, st, m, previous)
    ensures Run(track, AtDeltaEnd(st, m)) == Run(track, ScanAfter(track, st, m, previous))
  {
    RunningRun(track, AtDeltaEnd(st, m), m, ScanAfter(track, st, m, previous));
  }

  /** Explicit status: the status byte after the delta-time gives the type. */
  lemma ExplicitMessageScan(track: seq<Byte>, st: ScanState, m: ChannelMessage, previous: Option<Byte>)
    requires ValidMessage(m) && previous != Some(StatusByte(m))
    requires var here := AtDeltaEnd(st, m);
      && here.i + 1 < |track| && track[here.i] < 0x80 && track[here.i + 1] == StatusByte(m)
      && DeltaTime(track, here) == m.delta
    requires var here := AtDeltaEnd(st, m);
      here.(i := here.i + |m.data| + 2, runningStatus := Some(m.kind), tempArray := [],
            music := here.music + [CreateMessage(track, m.kind, m.delta, here.i + 1, here.i + |m.data| + 2)])
      == ScanAfter(track, st, m, previous)
    ensures Run(track, AtDeltaEnd(st, m)) == Run(track, ScanAfter(track, st, m, previous))
  {
    ExplicitRun(track, AtDeltaEnd(st, m), m, ScanAfter(track, st, m, previous));
  }

  /** One encoded message is read as one event, leaving the scan at the next message. */
  lemma MessageScan(track: seq<Byte>, st: ScanState, m: ChannelMessage, previous: Option<Byte>)
    requires ValidMessage(m) && MessageAt(track, st.i, m, previous)
    requires st.tempArray == [] && StatusAgrees(st, previous)
    ensures Run(track, st) == Run(track, ScanAfter(track, st, m, previous))
  {
    DeltaScan(track, st, m, previous);
    if previous == Some(StatusByte(m)) {
      RunningStatusAgrees(st, m, previous);
      RunningLayout(track, st, m, previous);
      RunningStateAfter(track, st, m, previous);
      RunningMessageScan(track, st, m, previous);
    } else {
      ExplicitLayout(track, st, m, previous);
      ExplicitStateAfter(track, st, m, previous);
      ExplicitMessageScan(track, st, m, previous);
    }
  }

  /** The 0x00 before the end-of-track event is held back: the 0xFF after it rules out a delta-time. */
  lemma EndOfTrackHeld(track: seq<Byte>, st: ScanState)
    requires st.i + 4 <= |track| && track[st.i..st.i + 4] == END_OF_TRACK
    ensures Step(track, st) == st.(i := st.i + 1, tempArray := st.tempArray + [0x00])
  {
    assert track[st.i] == 0x00 && track[st.i + 1] == 0xFF && track[st.i + 2] == 0x2F;
    assert !IsMetaStart(track, st.i) && !IsDeltaEnd(track, st.i);
  }

  /** The end-of-track meta-event has no handler: the loop breaks. */
  lemma EndOfTrackBreak(track: seq<Byte>, st: ScanState)
    requires 1 <= st.i && st.i + 3 <= |track| && track[st.i - 1..st.i + 3] == END_OF_TRACK
    ensures Step(track, st) == st.(i := |track|)
  {
    assert track[st.i] == 0xFF && track[st.i + 1] == 0x2F;
    assert IsMetaStart(track, st.i) && TrackMetadata(track[st.i + 1]) == Some(EndOfTrack);
  }

  /** The end-of-track event stops the scan where it is. */
  lemma EndOfTrackScan(track: seq<Byte>, st: ScanState)
    requires st.i + 4 <= |track| && track[st.i..st.i + 4] == END_OF_TRACK
    ensures Run(track, st) == st.(i := |track|, tempArray := st.tempArray + [0x00])
  {
    var next := st.(i := st.i + 1, tempArray := st.tempArray + [0x00]);
    var last := next.(i := |track|);
    EndOfTrackHeld(track, st);
    RunStep(track, st, next);
    EndOfTrackBreak(track, next);
    RunStep(track, next, last);
    RunDone(track, last);
  }

  /** The scan state after a sequence of messages, each as ScanAfter leaves it. */
  function ScanAfterAll(track: seq<Byte>, st: ScanState, msgs: seq<ChannelMessage>, previous: Option<Byte>): ScanState
    requires AllValid(msgs)
    decreases |msgs|
  {
    if |msgs| == 0 then st
    else ScanAfterAll(track, ScanAfter(track, st, msgs[0], previous), msgs[1..], Some(StatusByte(msgs[0])))
  }

  /** The encoded messages and end-of-track event, from the scan position. */
  predicate MessagesAt(track: seq<Byte>, pos: nat, msgs: seq<ChannelMessage>, previous: Option<Byte>)
    requires AllValid(msgs)
  {
    BytesAt(track, pos, EncodeMessages(msgs, previous) + END_OF_TRACK)
  }

  /** Splitting the first message off the encoded sequence. */
  lemma MessagesSplit(track: seq<Byte>, pos: nat, msgs: seq<ChannelMessage>, previous: Option<Byte>, next: nat)
    requires AllValid(msgs) && |msgs| > 0 && MessagesAt(track, pos, msgs, previous)
    requires next == pos + |EncodeMessage(msgs[0], previous)|
    ensures MessageAt(track, pos, msgs[0], previous)
    ensures MessagesAt(track, next, msgs[1..], Some(StatusByte(msgs[0])))
  {
    EncodeMessagesCons(msgs, previous);
    BytesSplit(track, pos, EncodeMessage(msgs[0], previous), EncodeMessages(msgs[1..], Some(StatusByte(msgs[0]))) + END_OF_TRACK);
  }

  /** After a message the running status is that message's type. */
  lemma StatusAfter(track: seq<Byte>, st: ScanState, m: ChannelMessage, previous: Option<Byte>)
    requires ValidMessage(m)
    ensures StatusAgrees(ScanAfter(track, st, m, previous), Some(StatusByte(m)))
  {
    KindNibbleRoundTrip(m.kind);
    assert StatusByte(m) / 16 == KindNibble(m.kind);
  }

  /** Chaining the scan over one message onto the scan over the messages after it. */
  lemma ScanChain(track: seq<Byte>, st: ScanState, msgs: seq<ChannelMessage>, previous: Option<Byte>)
    requires AllValid(msgs) && |msgs| > 0
    requires Run(track, st) == Run(track, ScanAfter(track, st, msgs[0], previous))
    requires Run(track, ScanAfter(track, st, msgs[0], previous))
      == Run(track, ScanAfterAll(track, ScanAfter(track, st, msgs[0], previous), msgs[1..], Some(StatusByte(msgs[0]))))
    ensures Run(track, st) == Run(track, ScanAfterAll(track, st, msgs, previous))
  {
  }

  /** The scan over the first message, leaving the rest of the messages at the scan position. */
  lemma FirstMessageScan(track: seq<Byte>, st: ScanState, msgs: seq<ChannelMessage>, previous: Option<Byte>)
    requires AllValid(msgs) && |msgs| > 0 && MessagesAt(track, st.i, msgs, previous)
    requires st.tempArray == [] && StatusAgrees(st, previous)
    ensures var next := ScanAfter(track, st, msgs[0], previous);
      && MessagesAt(track, next.i, msgs[1..], Some(StatusByte(msgs[0])))
      && next.tempArray == [] && StatusAgrees(next, Some(StatusByte(msgs[0])))
      && Run(track, st) == Run(track, next)
  {
    MessagesSplit(track, st.i, msgs, previous, ScanAfter(track, st, msgs[0], previous).i);
    StatusAfter(track, st, msgs[0], previous);
    MessageScan(track, st, msgs[0], previous);
  }

  /** The scan passes over the encoded messages one by one. */
  lemma {:induction false} MessagesScan(track: seq<Byte>, st: ScanState, msgs: seq<ChannelMessage>, previous: Option<Byte>)
    requires AllValid(msgs) && MessagesAt(track, st.i, msgs, previous)
    requires st.tempArray == [] && StatusAgrees(st, previous)
    ensures Run(track, st) == Run(track, ScanAfterAll(track, st, msgs, previous))
    decreases |msgs|
  {
    if |msgs| > 0 {
      FirstMessageScan(track, st, msgs, previous);
      MessagesScan(track, ScanAfter(track, st, msgs[0], previous), msgs[1..], Some(StatusByte(msgs[0])));
      ScanChain(track, st, msgs, previous);
    }
  }

  /** What the scan holds after one message: its event appended, the meta-events untouched. */
  lemma ScanAfterContents(track: seq<Byte>, st: ScanState, m: ChannelMessage, previous: Option<Byte>)
    requires ValidMessage(m) && MessageAt(track, st.i, m, previous)
    ensures Heards(ScanAfter(track, st, m, previous).music) == Heards(st.music) + [Expected(m)]
  {
    MessageHeardAt(track, st.i, m, previous);
    var e := EventFor(track, st.i, m, previous);
    assert Heards(st.music + [e]) == Heards(st.music) + [Expected(m)];
  }

  /** The scan position after the messages is just past their encoding. */
  lemma {:induction false} ScanAfterAllPosition(track: seq<Byte>, st: ScanState, msgs: seq<ChannelMessage>, previous: Option<Byte>)
    requires AllValid(msgs)
    ensures ScanAfterAll(track, st, msgs, previous).i == st.i + |EncodeMessages(msgs, previous)|
    decreases |msgs|
  {
    if |msgs| > 0 {
      ScanAfterAllPosition(track, ScanAfter(track, st, msgs[0], previous), msgs[1..], Some(StatusByte(msgs[0])));
    }
  }

  lemma AppendThree<T>(middle: seq<T>, whole: seq<T>, tail: seq<T>, a: seq<T>, b: seq<T>, c: seq<T>)
    requires middle == a + b && whole == middle + c && tail == b + c
    ensures whole == a + tail
  {
  }

  /** Channel messages leave the meta-events alone. */
  lemma {:induction false} ScanAfterAllMeta(track: seq<Byte>, st: ScanState, msgs: seq<ChannelMessage>, previous: Option<Byte>)
    requires AllValid(msgs)
    ensures ScanAfterAll(track, st, msgs, previous).meta == st.meta
    decreases |msgs|
  {
    if |msgs| > 0 {
      ScanAfterAllMeta(track, ScanAfter(track, st, msgs[0], previous), msgs[1..], Some(StatusByte(msgs[0])));
    }
  }

  /** Chaining one message's events onto those of the messages after it. */
  lemma MusicChain(track: seq<Byte>, st: ScanState, msgs: seq<ChannelMessage>, previous: Option<Byte>)
    requires AllValid(msgs) && |msgs| > 0
    requires Heards(ScanAfter(track, st, msgs[0], previous).music) == Heards(st.music) + [Expected(msgs[0])]
    requires Heards(ScanAfterAll(track, ScanAfter(track, st, msgs[0], previous), msgs[1..], Some(StatusByte(msgs[0]))).music)
      == Heards(ScanAfter(track, st, msgs[0], previous).music) + ExpectedAll(msgs[1..])
    ensures Heards(ScanAfterAll(track, st, msgs, previous).music) == Heards(st.music) + ExpectedAll(msgs)
  {
    var next := ScanAfter(track, st, msgs[0], previous);
    assert ExpectedAll(msgs) == [Expected(msgs[0])] + ExpectedAll(msgs[1..]);
    AppendThree(Heards(next.music), Heards(ScanAfterAll(track, st, msgs, previous).music), ExpectedAll(msgs),
      Heards(st.music), [Expected(msgs[0])], ExpectedAll(msgs[1..]));
  }

  /** What the scan holds after the messages: their events appended, in order. */
  lemma {:induction false} ScanAfterAllMusic(track: seq<Byte>, st: ScanState, msgs: seq<ChannelMessage>, previous: Option<Byte>)
    requires AllValid(msgs) && MessagesAt(track, st.i, msgs, previous)
    ensures Heards(ScanAfterAll(track, st, msgs, previous).music) == Heards(st.music) + ExpectedAll(msgs)
    decreases |msgs|
  {
    if |msgs| > 0 {
      var next := ScanAfter(track, st, msgs[0], previous);
      MessagesSplit(track, st.i, msgs, previous, next.i);
      ScanAfterContents(track, st, msgs[0], previous);
      ScanAfterAllMusic(track, next, msgs[1..], Some(StatusByte(msgs[0])));
      MusicChain(track, st, msgs, previous);
    }
  }

  /** The scan of a whole encoded track ends at the end-of-track event with the messages' events. */
  lemma EncodedTrackScan(msgs: seq<ChannelMessage>)
    requires AllValid(msgs)
    ensures var fin := ScanAfterAll(EncodeTrack(msgs), InitialState(), msgs, None);
      ParseTrackSpec(EncodeTrack(msgs)) == ParsedTrack(fin.music, fin.meta)
  {
    var track := EncodeTrack(msgs);
    assert track[0..|EncodeMessages(msgs, None)| + 4] == track;
    MessagesScan(track, InitialState(), msgs, None);
    var fin := ScanAfterAll(track, InitialState(), msgs, None);
    ScanAfterAllPosition(track, InitialState(), msgs, None);
    assert fin.i + 4 == |track|;
    assert track[fin.i..fin.i + 4] == END_OF_TRACK;
    EndOfTrackScan(track, fin);
  }

  /**
   * A track of channel messages (status bytes shared by running status)
   * and an end-of-track event parses to exactly those messages, in order,
   * with their delta-times, types, notes, velocities and data, and no
   * meta-events.
   */
  lemma EncodedTrackRoundTrip(msgs: seq<ChannelMessage>)
    requires AllValid(msgs)
    ensures Heards(ParseTrackSpec(EncodeTrack(msgs)).music) == ExpectedAll(msgs)
    ensures ParseTrackSpec(EncodeTrack(msgs)).meta == map[]
  {
    var track := EncodeTrack(msgs);
    assert track[0..|EncodeMessages(msgs, None)| + 4] == track;
    EncodedTrackScan(msgs);
    ScanAfterAllMusic(track, InitialState(), msgs, None);
    ScanAfterAllMeta(track, InitialState(), msgs, None);
  }

  /** Delta-times below 0x3F80 never put a 0xFF byte in front of a meta subtype. */
  lemma SmallDeltasAreSafe(delta: nat)
    requires delta < 0x3F80
    ensures DeltaSafe(ParseQuantity.EncodeVlq(delta))
  {
    SafeDeltaEncodes(delta);
  }
}
