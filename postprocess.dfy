/**
 * postprocess (assets/js/midi/track.js): turns the `music` list of a parsed
 * track into notes with a start time and a duration, plus every other
 * command stamped with its start time, sorted by start time.
 *
 * The loop is specified by `PairStep`, one iteration on an explicit
 * `Pairing` (the open-notes map, the output list and the clock), and `Pair`,
 * the loop over a whole list; the method `Postprocess` is the imperative
 * loop, proved to compute `PostprocessSpec`. The final sort is the stable
 * insertion sort `SortByStart`.
 */
module Postprocess {
  import opened Wrappers
  import opened Bytes
  import opened MidiUtility
  import opened TrackScan

  // ---------------------------------------------------------------------
  // the fields postprocess reads from a command
  // ---------------------------------------------------------------------

  /** `midiNote`, the key of the open-notes map; undefined for a command without a note. */
  function NoteKey(e: Event): Option<Byte>
  {
    if e.body.Note? then e.body.midiNote else None
  }

  function PianoKey(e: Event): Option<int>
  {
    if e.body.Note? then e.body.pianoNote else None
  }

  function Velocity(e: Event): Option<Byte>
  {
    if e.body.Note? then e.body.velocity else None
  }

  /** A note is being stopped: a note-off, or a note-on of velocity 0. */
  predicate IsNoteStop(e: Event)
  {
    (e.kind == NoteOn && Velocity(e) == Some(0)) || e.kind == NoteOff
  }

  /** A note is being started: a note-on of any other velocity (undefined included). */
  predicate IsNoteStart(e: Event)
  {
    e.kind == NoteOn && Velocity(e) != Some(0)
  }

  // ---------------------------------------------------------------------
  // records
  // ---------------------------------------------------------------------

  /** An entry of currentlyPlaying: the note-on command, with the startTime written into it. */
  datatype Playing = Playing(command: Event, startTime: int)

  /**
   * An element of the output: a closed note (its fields taken from the
   * note-off and from the note-on it closes), or a command passed through
   * with the startTime written into it.
   */
  datatype Played =
    | PlayedNote(midiNote: Option<Byte>, pianoNote: Option<int>, velocity: Option<Byte>,
                 startTime: int, duration: int, kind: MessageKind)
    | Command(command: Event, startTime: int)

  /** The loop's variables: currentlyPlaying, postprocessed and runningTime. */
  datatype Pairing = Pairing(playing: map<Option<Byte>, Playing>, out: seq<Played>, clock: int)

  // ---------------------------------------------------------------------
  // the loop as a fold
  // ---------------------------------------------------------------------

  /** One iteration: advance the clock, then close, open or pass through the command. */
  function PairStep(p: Pairing, e: Event): Result<Pairing, MidiError>
  {
    var clock := p.clock + e.time;
    if IsNoteStop(e) then
      var key := NoteKey(e);
      if key !in p.playing then Failure(UnmatchedNoteOff)
      else
        var open := p.playing[key];
        var note := PlayedNote(key, PianoKey(e), Velocity(open.command), open.startTime,
                               clock - open.startTime, open.command.kind);
        Success(Pairing(p.playing - {key}, p.out + [note], clock))
    else if e.kind == NoteOn then
      Success(Pairing(p.playing[NoteKey(e) := Playing(e, clock)], p.out, clock))
    else
      Success(Pairing(p.playing, p.out + [Command(e, clock)], clock))
  }

  /** The sum of the `time` fields: the clock after a list of commands. */
  function TimeSum(events: seq<Event>): int
  {
    if |events| == 0 then 0 else TimeSum(events[..|events| - 1]) + events[|events| - 1].time
  }

  /** How many commands start a note. */
  function Starts(events: seq<Event>): (r: nat)
    ensures r <= |events|
  {
    if |events| == 0 then 0
    else Starts(events[..|events| - 1]) + (if IsNoteStart(events[|events| - 1]) then 1 else 0)
  }

  /**
   * The loop over a list of commands. Its clock is the prefix sum of their
   * times; every command but a note start adds one output element; the only
   * way it fails is a note stop whose note is not open.
   */
  function Pair(events: seq<Event>): (r: Result<Pairing, MidiError>)
    ensures r.Success? ==> r.value.clock == TimeSum(events)
    ensures r.Success? ==> |r.value.out| == |events| - Starts(events)
    ensures r.Failure? ==> r.error == UnmatchedNoteOff
  {
    if |events| == 0 then Success(Pairing(map[], [], 0))
    else
      match Pair(events[..|events| - 1])
      case Failure(err) => Failure(err)
      case Success(p) => PairStep(p, events[|events| - 1])
  }

  /** postprocess: the loop, then the sort by start time. */
  function PostprocessSpec(events: seq<Event>): Result<seq<Played>, MidiError>
  {
    match Pair(events)
    case Success(p) => Success(SortByStart(p.out))
    case Failure(err) => Failure(err)
  }

  // ---------------------------------------------------------------------
  // the sort
  // ---------------------------------------------------------------------

  predicate SortedByStart(s: seq<Played>)
  {
    forall j, k :: 0 <= j < k < |s| ==> s[j].startTime <= s[k].startTime
  }

  /** Inserts `x` after every element whose start time is not later than its own. */
  function InsertByStart(s: seq<Played>, x: Played): (r: seq<Played>)
    requires SortedByStart(s)
    ensures SortedByStart(r)
    ensures multiset(r) == multiset(s) + multiset{x}
    ensures r[|r| - 1] == x || (|s| > 0 && r[|r| - 1] == s[|s| - 1])
  {
    if |s| == 0 || s[|s| - 1].startTime <= x.startTime then
      AppendAfter(s, x);
      s + [x]
    else
      var inserted := InsertByStart(s[..|s| - 1], x);
      InsertBefore(s, x, inserted);
      inserted + [s[|s| - 1]]
  }

  /** Appending `x` after a sorted list whose last element is no later keeps it sorted. */
  lemma AppendAfter(s: seq<Played>, x: Played)
    requires SortedByStart(s) && (|s| == 0 || s[|s| - 1].startTime <= x.startTime)
    ensures SortedByStart(s + [x])
  {
  }

  /**
   * When `x` starts before the last element of `s`, it is inserted into the
   * rest of `s` and that last element is appended after.
   */
  lemma InsertBefore(s: seq<Played>, x: Played, inserted: seq<Played>)
    requires SortedByStart(s) && |s| > 0 && x.startTime < s[|s| - 1].startTime
    requires SortedByStart(inserted) && multiset(inserted) == multiset(s[..|s| - 1]) + multiset{x}
    requires inserted[|inserted| - 1] == x || (|s| > 1 && inserted[|inserted| - 1] == s[|s| - 2])
    ensures SortedByStart(inserted + [s[|s| - 1]])
    ensures multiset(inserted + [s[|s| - 1]]) == multiset(s) + multiset{x}
  {
    assert s == s[..|s| - 1] + [s[|s| - 1]];
  }

  /** The stable sort `postprocessed.sort((a, b) => a.startTime - b.startTime)`. */
  function SortByStart(s: seq<Played>): (r: seq<Played>)
    ensures SortedByStart(r)
    ensures multiset(r) == multiset(s)
  {
    if |s| == 0 then []
    else
      assert s == s[..|s| - 1] + [s[|s| - 1]];
      InsertByStart(SortByStart(s[..|s| - 1]), s[|s| - 1])
  }

  /** The elements starting at `t`, in order. */
  function StartingAt(s: seq<Played>, t: int): seq<Played>
  {
    if |s| == 0 then []
    else StartingAt(s[..|s| - 1], t) + (if s[|s| - 1].startTime == t then [s[|s| - 1]] else [])
  }

  lemma {:induction false} StartingAtConcat(a: seq<Played>, b: seq<Played>, t: int)
    ensures StartingAt(a + b, t) == StartingAt(a, t) + StartingAt(b, t)
    decreases |b|
  {
    if |b| == 0 {
      assert a + b == a;
    } else {
      var b' := b[..|b| - 1];
      assert (a + b)[..|a + b| - 1] == a + b';
      StartingAtConcat(a, b', t);
    }
  }

  lemma StartingAtSingle(y: Played, t: int)
    ensures StartingAt([y], t) == (if y.startTime == t then [y] else [])
  {
    assert [y][..0] == [];
  }

  /** Two elements with different start times commute under StartingAt. */
  lemma StartingAtSwap(x: Played, y: Played, t: int)
    requires x.startTime != y.startTime
    ensures StartingAt([x], t) + StartingAt([y], t) == StartingAt([y], t) + StartingAt([x], t)
  {
    StartingAtSingle(x, t);
    StartingAtSingle(y, t);
  }

  /** Appending one element to a list splits StartingAt the same way. */
  lemma InsertLastStable(s: seq<Played>, x: Played, t: int)
    ensures StartingAt(s + [x], t) == StartingAt(s, t) + StartingAt([x], t)
  {
    StartingAtConcat(s, [x], t);
  }

  /** StartingAt of `inserted + [last]`, where `inserted` is `init` with `x` put in and `last` starts later than `x`. */
  lemma InsertBeforeStable(init: seq<Played>, inserted: seq<Played>, x: Played, last: Played, t: int)
    requires x.startTime < last.startTime
    requires StartingAt(inserted, t) == StartingAt(init, t) + StartingAt([x], t)
    ensures StartingAt(inserted + [last], t) == StartingAt(init + [last], t) + StartingAt([x], t)
  {
    StartingAtConcat(inserted, [last], t);
    StartingAtConcat(init, [last], t);
    StartingAtSwap(x, last, t);
  }

  /** Inserting keeps the order among elements with the same start time. */
  lemma {:induction false} InsertStable(s: seq<Played>, x: Played, t: int)
    requires SortedByStart(s)
    ensures StartingAt(InsertByStart(s, x), t) == StartingAt(s, t) + StartingAt([x], t)
    decreases |s|
  {
    if |s| == 0 || s[|s| - 1].startTime <= x.startTime {
      InsertLastStable(s, x, t);
    } else {
      var init := s[..|s| - 1];
      var last := s[|s| - 1];
      assert s == init + [last];
      InsertStable(init, x, t);
      InsertBeforeStable(init, InsertByStart(init, x), x, last, t);
    }
  }

  /** The sort is stable: elements with equal start times keep their relative order. */
  lemma {:induction false} SortStable(s: seq<Played>, t: int)
    ensures StartingAt(SortByStart(s), t) == StartingAt(s, t)
  {
    if |s| > 0 {
      var init := s[..|s| - 1];
      assert s == init + [s[|s| - 1]];
      SortStable(init, t);
      InsertStable(SortByStart(init), s[|s| - 1], t);
      StartingAtConcat(init, [s[|s| - 1]], t);
    }
  }

  // ---------------------------------------------------------------------
  // what the loop promises
  // ---------------------------------------------------------------------

  /** The output of the loop, when it succeeds. */
  function PairedOut(events: seq<Event>): seq<Played>
  {
    if Pair(events).Success? then Pair(events).value.out else []
  }

  /** Appending a command to the list is one more iteration. */
  lemma PairSnoc(events: seq<Event>, e: Event)
    ensures Pair(events + [e]) == (match Pair(events) case Success(p) => PairStep(p, e) case Failure(err) => Failure(err))
  {
    assert (events + [e])[..|events|] == events;
  }

  /** Two iterations of the loop, on `first` then on `second`. */
  lemma PairTwo(events: seq<Event>, first: Event, second: Event, p: Pairing, q: Pairing)
    requires Pair(events) == Success(p) && PairStep(p, first) == Success(q)
    ensures Pair(events + [first, second]) == PairStep(q, second)
  {
    PairSnoc(events, first);
    PairSnoc(events + [first], second);
    assert events + [first] + [second] == events + [first, second];
  }

  /** Opening a note and closing it at once leaves the other open notes as they were. */
  lemma CloseStep(p: Pairing, on: Event, off: Event)
    requires IsNoteStart(on) && IsNoteStop(off) && NoteKey(on) == NoteKey(off)
    ensures PairStep(p, on) == Success(Pairing(p.playing[NoteKey(on) := Playing(on, p.clock + on.time)], p.out, p.clock + on.time))
    ensures PairStep(PairStep(p, on).value, off) == Success(Pairing(
        p.playing - {NoteKey(on)},
        p.out + [PlayedNote(NoteKey(off), PianoKey(off), Velocity(on), p.clock + on.time, off.time, NoteOn)],
        p.clock + on.time + off.time))
  {
    assert p.playing[NoteKey(on) := Playing(on, p.clock + on.time)] - {NoteKey(on)} == p.playing - {NoteKey(on)};
  }

  /**
   * A note start immediately followed by a stop of the same note closes it: the note
   * starts at the clock after the start (the prefix sum of the times up to
   * it) and lasts the stop's delta-time.
   */
  lemma NoteClosed(events: seq<Event>, on: Event, off: Event, p: Pairing)
    requires Pair(events) == Success(p) && IsNoteStart(on) && IsNoteStop(off) && NoteKey(on) == NoteKey(off)
    ensures p.clock == TimeSum(events)
    ensures Pair(events + [on, off]) == Success(Pairing(
        p.playing - {NoteKey(on)},
        p.out + [PlayedNote(NoteKey(off), PianoKey(off), Velocity(on), p.clock + on.time, off.time, NoteOn)],
        p.clock + on.time + off.time))
  {
    CloseStep(p, on, off);
    PairTwo(events, on, off, p, PairStep(p, on).value);
  }

  /** Two starts of the same note: the second replaces the first in the open-notes map. */
  lemma RestrikeStep(p: Pairing, first: Event, second: Event)
    requires IsNoteStart(first) && IsNoteStart(second) && NoteKey(first) == NoteKey(second)
    ensures PairStep(p, first) == Success(Pairing(p.playing[NoteKey(first) := Playing(first, p.clock + first.time)], p.out, p.clock + first.time))
    ensures PairStep(PairStep(p, first).value, second) == Success(Pairing(
        p.playing[NoteKey(second) := Playing(second, p.clock + first.time + second.time)],
        p.out,
        p.clock + first.time + second.time))
  {
    var key := NoteKey(first);
    assert p.playing[key := Playing(first, p.clock + first.time)][key := Playing(second, p.clock + first.time + second.time)]
        == p.playing[key := Playing(second, p.clock + first.time + second.time)];
  }

  /** A second start of an open note replaces the first, which then never reaches the output. */
  lemma RestrikeReplaces(events: seq<Event>, first: Event, second: Event, p: Pairing)
    requires Pair(events) == Success(p) && IsNoteStart(first) && IsNoteStart(second) && NoteKey(first) == NoteKey(second)
    ensures Pair(events + [first, second]) == Success(Pairing(
        p.playing[NoteKey(second) := Playing(second, p.clock + first.time + second.time)],
        p.out,
        p.clock + first.time + second.time))
  {
    RestrikeStep(p, first, second);
    PairTwo(events, first, second, p, PairStep(p, first).value);
  }

  /** A command that is not a note start or stop is passed through, stamped with the prefix sum of times up to it. */
  lemma PassedThrough(events: seq<Event>, e: Event)
    requires Pair(events).Success? && !IsNoteStop(e) && e.kind != NoteOn
    ensures Pair(events + [e]).Success?
    ensures PairedOut(events + [e]) == PairedOut(events) + [Command(e, TimeSum(events + [e]))]
  {
    PairSnoc(events, e);
    assert (events + [e])[..|events|] == events;
  }

  /** A note stop when its note is not open makes postprocess fail, whatever follows. */
  lemma UnmatchedStopFails(events: seq<Event>, e: Event, rest: seq<Event>)
    requires Pair(events).Success? && IsNoteStop(e) && NoteKey(e) !in Pair(events).value.playing
    ensures PostprocessSpec(events + [e] + rest) == Failure(UnmatchedNoteOff)
  {
    PairSnoc(events, e);
    assert (events + [e] + rest)[..|events| + 1] == events + [e];
    PairFailureStays(events + [e] + rest, |events| + 1);
  }

  /** The first command fails exactly when it stops a note: nothing is open yet. */
  lemma FirstCommand(e: Event)
    ensures Pair([e]).Failure? <==> IsNoteStop(e)
  {
    assert [e][..0] == [];
  }

  /** With non-negative delta-times, open notes start no later than the clock. */
  predicate ClockAhead(p: Pairing)
  {
    && p.clock >= 0
    && (forall key :: key in p.playing ==> p.playing[key].startTime <= p.clock)
    && (forall k :: 0 <= k < |p.out| && p.out[k].PlayedNote? ==> p.out[k].duration >= 0)
  }

  lemma StepKeepsClockAhead(p: Pairing, e: Event)
    requires ClockAhead(p) && e.time >= 0 && PairStep(p, e).Success?
    ensures ClockAhead(PairStep(p, e).value)
  {
  }

  /** With non-negative delta-times every closed note has a non-negative duration. */
  lemma {:induction false} DurationsNonNegative(events: seq<Event>)
    requires forall k :: 0 <= k < |events| ==> events[k].time >= 0
    ensures Pair(events).Success? ==> ClockAhead(Pair(events).value)
  {
    if |events| > 0 && Pair(events).Success? {
      var init := events[..|events| - 1];
      DurationsNonNegative(init);
      StepKeepsClockAhead(Pair(init).value, events[|events| - 1]);
    }
  }

  /** Every passed-through command is a command of the list that neither starts nor stops a note. */
  predicate FromInput(p: Pairing, events: seq<Event>)
  {
    && (forall k :: 0 <= k < |p.out| && p.out[k].Command? ==>
          p.out[k].command in events && !IsNoteStop(p.out[k].command) && p.out[k].command.kind != NoteOn)
    && (forall k :: 0 <= k < |p.out| && p.out[k].PlayedNote? ==> p.out[k].kind == NoteOn)
    && (forall key :: key in p.playing ==> p.playing[key].command.kind == NoteOn)
  }

  lemma StepKeepsFromInput(p: Pairing, init: seq<Event>, e: Event)
    requires FromInput(p, init) && PairStep(p, e).Success?
    ensures FromInput(PairStep(p, e).value, init + [e])
  {
  }

  /**
   * The output holds closed note-ons and passed-through commands of the list
   * only; a note-on that is never closed produces nothing.
   */
  lemma {:induction false} OutputFromInput(events: seq<Event>)
    ensures Pair(events).Success? ==> FromInput(Pair(events).value, events)
  {
    if |events| > 0 && Pair(events).Success? {
      var init := events[..|events| - 1];
      OutputFromInput(init);
      assert init + [events[|events| - 1]] == events;
      StepKeepsFromInput(Pair(init).value, init, events[|events| - 1]);
    }
  }

  // ---------------------------------------------------------------------
  // which note-on an open entry holds
  // ---------------------------------------------------------------------

  /**
   * Position `j` holds a start of `key` that nothing after it has stopped or
   * restarted: the note-on that an open entry for `key` should be.
   */
  predicate OpenedAt(events: seq<Event>, key: Option<Byte>, j: int)
  {
    && 0 <= j < |events| && IsNoteStart(events[j]) && NoteKey(events[j]) == key
    && forall k :: j < k < |events| && NoteKey(events[k]) == key ==> !IsNoteStop(events[k]) && !IsNoteStart(events[k])
  }

  /** The position of the last start of `key` with no later stop of `key`, if there is one. */
  function LastOpen(events: seq<Event>, key: Option<Byte>): (r: Option<nat>)
    ensures r.Some? ==> OpenedAt(events, key, r.value)
    ensures r.None? ==> forall j :: 0 <= j < |events| ==> !OpenedAt(events, key, j)
  {
    if |events| == 0 then None
    else
      var e := events[|events| - 1];
      if NoteKey(e) == key && IsNoteStop(e) then None
      else if NoteKey(e) == key && IsNoteStart(e) then Some(|events| - 1)
      else
        var r := LastOpen(events[..|events| - 1], key);
        LastOpenExtends(events, events[..|events| - 1], key, r);
        r
  }

  /** A last command that neither starts nor stops `key` leaves the open positions of `key` as they were. */
  lemma LastOpenExtends(events: seq<Event>, init: seq<Event>, key: Option<Byte>, r: Option<nat>)
    requires |events| > 0 && init == events[..|events| - 1]
    requires NoteKey(events[|events| - 1]) != key || (!IsNoteStop(events[|events| - 1]) && !IsNoteStart(events[|events| - 1]))
    requires r.Some? ==> OpenedAt(init, key, r.value)
    requires r.None? ==> forall j :: 0 <= j < |init| ==> !OpenedAt(init, key, j)
    ensures r.Some? ==> OpenedAt(events, key, r.value)
    ensures r.None? ==> forall j :: 0 <= j < |events| ==> !OpenedAt(events, key, j)
  {
    forall j | 0 <= j < |events| - 1
      ensures OpenedAt(events, key, j) <==> OpenedAt(init, key, j)
    {
      assert forall k :: j < k < |events| - 1 ==> init[k] == events[k];
    }
  }

  /** The open entry for the note-on at `j`: that command, started at the clock after it. */
  function OpenEntry(events: seq<Event>, j: nat): Playing
    requires j < |events|
  {
    Playing(events[j], TimeSum(events[..j + 1]))
  }

  /**
   * The open-notes map holds exactly the notes with an unstopped start, each
   * entry being its last start stamped with the prefix sum up to it.
   */
  ghost predicate OpensMatch(p: Pairing, events: seq<Event>)
  {
    && (forall key :: key in p.playing <==> LastOpen(events, key).Some?)
    && (forall key :: key in p.playing ==> p.playing[key] == OpenEntry(events, LastOpen(events, key).value))
  }

  /** Appending a command keeps the earlier positions and their prefix sums. */
  lemma SnocPrefixes(events: seq<Event>, e: Event)
    ensures (events + [e])[..|events|] == events
    ensures TimeSum(events + [e]) == TimeSum(events) + e.time
  {
    assert (events + [e])[..|events|] == events;
  }

  /** A position before the end of a prefix has the same command and prefix sum in the longer list. */
  lemma PrefixEntry(events: seq<Event>, pre: seq<Event>, j: nat)
    requires pre <= events && j < |pre|
    ensures pre[j] == events[j] && TimeSum(pre[..j + 1]) == TimeSum(events[..j + 1])
  {
    assert pre[..j + 1] == events[..j + 1];
  }

  /** The open position of `key` after one more command. */
  lemma LastOpenSnoc(events: seq<Event>, e: Event, key: Option<Byte>)
    ensures LastOpen(events + [e], key) ==
      if NoteKey(e) == key && IsNoteStop(e) then None
      else if NoteKey(e) == key && IsNoteStart(e) then Some(|events|)
      else LastOpen(events, key)
  {
    assert (events + [e])[..|events|] == events;
  }

  /** One iteration keeps the entry of one note in step with the list. */
  lemma KeyStep(p: Pairing, events: seq<Event>, e: Event, key: Option<Byte>, q: Pairing)
    requires p.clock == TimeSum(events) && PairStep(p, e) == Success(q)
    requires key in p.playing <==> LastOpen(events, key).Some?
    requires key in p.playing ==> p.playing[key] == OpenEntry(events, LastOpen(events, key).value)
    ensures key in q.playing <==> LastOpen(events + [e], key).Some?
    ensures key in q.playing ==> q.playing[key] == OpenEntry(events + [e], LastOpen(events + [e], key).value)
  {
    LastOpenSnoc(events, e, key);
    if NoteKey(e) == key && IsNoteStart(e) {
      SnocPrefixes(events, e);
      assert (events + [e])[..|events| + 1] == events + [e];
    } else if key in p.playing && key in q.playing {
      var j := LastOpen(events, key).value;
      PrefixEntry(events + [e], events, j);
      assert OpenEntry(events + [e], j) == OpenEntry(events, j);
    }
  }

  /** One iteration keeps the open-notes map in step with the list. */
  lemma StepKeepsOpens(p: Pairing, events: seq<Event>, e: Event)
    requires OpensMatch(p, events) && p.clock == TimeSum(events) && PairStep(p, e).Success?
    ensures OpensMatch(PairStep(p, e).value, events + [e])
  {
    var q := PairStep(p, e).value;
    forall key
      ensures key in q.playing <==> LastOpen(events + [e], key).Some?
      ensures key in q.playing ==> q.playing[key] == OpenEntry(events + [e], LastOpen(events + [e], key).value)
    {
      KeyStep(p, events, e, key, q);
    }
  }

  /** On every list the loop accepts, the open-notes map is the one OpensMatch describes. */
  lemma {:induction false} PairOpens(events: seq<Event>)
    ensures Pair(events).Success? ==> OpensMatch(Pair(events).value, events)
  {
    if |events| > 0 && Pair(events).Success? {
      var init := events[..|events| - 1];
      PairOpens(init);
      assert init + [events[|events| - 1]] == events;
      StepKeepsOpens(Pair(init).value, init, events[|events| - 1]);
    }
  }

  /** After a list the loop accepts, one more command throws exactly when it stops a note that has no unstopped start. */
  lemma StopFailsIff(events: seq<Event>, e: Event)
    requires Pair(events).Success?
    ensures Pair(events + [e]).Failure? <==> IsNoteStop(e) && LastOpen(events, NoteKey(e)).None?
  {
    PairOpens(events);
    PairSnoc(events, e);
  }

  /** A list is the prefix before position `n` with that position's command appended. */
  lemma TakeSnoc(events: seq<Event>, n: nat)
    requires n < |events|
    ensures events[..n + 1] == events[..n] + [events[n]]
  {
  }

  /** When a list with one more command is accepted, so is the list, and its output is a prefix. */
  lemma OutputStep(pre: seq<Event>, e: Event)
    requires Pair(pre + [e]).Success?
    ensures Pair(pre).Success? && PairedOut(pre) <= PairedOut(pre + [e])
  {
    PairSnoc(pre, e);
  }

  /** The output of an accepted list begins with the output of each of its prefixes. */
  lemma {:induction false} OutputGrows(events: seq<Event>, n: nat)
    requires n <= |events| && Pair(events).Success?
    ensures Pair(events[..n]).Success? && PairedOut(events[..n]) <= PairedOut(events)
    decreases |events| - n
  {
    if n == |events| {
      assert events[..n] == events;
    } else {
      OutputGrows(events, n + 1);
      TakeSnoc(events, n);
      OutputStep(events[..n], events[n]);
    }
  }

  /** A stop after a list the loop accepts either throws or closes the last unstopped start of its note. */
  lemma StopCloses(pre: seq<Event>, e: Event, p: Pairing)
    requires Pair(pre) == Success(p) && IsNoteStop(e) && Pair(pre + [e]).Success?
    ensures LastOpen(pre, NoteKey(e)).Some?
    ensures var j := LastOpen(pre, NoteKey(e)).value;
      Pair(pre + [e]) == Success(Pairing(
        p.playing - {NoteKey(e)},
        p.out + [PlayedNote(NoteKey(e), PianoKey(e), Velocity(pre[j]), TimeSum(pre[..j + 1]),
                            TimeSum(pre + [e]) - TimeSum(pre[..j + 1]), NoteOn)],
        TimeSum(pre + [e])))
  {
    PairOpens(pre);
    PairSnoc(pre, e);
    SnocPrefixes(pre, e);
  }

  /** The last output element of an accepted prefix is among the elements postprocess returns. */
  lemma PrefixOutputKept(events: seq<Event>, n: nat)
    requires n <= |events| && Pair(events).Success? && |PairedOut(events[..n])| > 0
    ensures PairedOut(events[..n])[|PairedOut(events[..n])| - 1] in PostprocessSpec(events).value
  {
    OutputGrows(events, n);
    var out := PairedOut(events[..n]);
    assert PairedOut(events)[|out| - 1] == out[|out| - 1];
    assert out[|out| - 1] in multiset(PairedOut(events));
  }

  /** The prefixes of a list split around one command. */
  lemma PrefixOf(pre: seq<Event>, e: Event, rest: seq<Event>)
    ensures (pre + [e] + rest)[..|pre|] == pre
    ensures (pre + [e] + rest)[..|pre| + 1] == pre + [e]
  {
    assert (pre + [e] + rest)[..|pre| + 1] == pre + [e];
  }

  /**
   * In a list postprocess accepts, a stop `e` after the commands `pre`
   * closes the last unstopped start `j` of its note: the note output there
   * starts at the prefix sum up to `j`, lasts until the prefix sum up to
   * `e`, carries the start's velocity and is among the notes postprocess
   * returns.
   */
  lemma NoteClosedAt(pre: seq<Event>, e: Event, rest: seq<Event>)
    requires IsNoteStop(e) && Pair(pre + [e] + rest).Success?
    ensures LastOpen(pre, NoteKey(e)).Some?
    ensures var j := LastOpen(pre, NoteKey(e)).value;
      var note := PlayedNote(NoteKey(e), PianoKey(e), Velocity(pre[j]),
                             TimeSum(pre[..j + 1]), TimeSum(pre + [e]) - TimeSum(pre[..j + 1]), NoteOn);
      && IsNoteStart(pre[j]) && NoteKey(pre[j]) == NoteKey(e)
      && PairedOut(pre + [e]) == PairedOut(pre) + [note]
      && note in PostprocessSpec(pre + [e] + rest).value
  {
    var events := pre + [e] + rest;
    PrefixOf(pre, e, rest);
    OutputGrows(events, |pre|);
    OutputGrows(events, |pre| + 1);
    StopCloses(pre, e, Pair(pre).value);
    PrefixOutputKept(events, |pre| + 1);

  }

  /**
   * postprocess returns the loop's output sorted by start time, as a
   * permutation, keeping the loop's order among equal start times.
   */
  lemma PostprocessOrder(events: seq<Event>, t: int)
    requires PostprocessSpec(events).Success?
    ensures var r := PostprocessSpec(events).value;
      && SortedByStart(r)
      && multiset(r) == multiset(PairedOut(events))
      && StartingAt(r, t) == StartingAt(PairedOut(events), t)
  {
    SortStable(PairedOut(events), t);
  }

  // ---------------------------------------------------------------------
  // the method
  // ---------------------------------------------------------------------

  /** Once the loop has failed on a prefix, it fails on the whole list. */
  lemma {:induction false} PairFailureStays(events: seq<Event>, n: nat)
    requires n <= |events| && Pair(events[..n]).Failure?
    ensures Pair(events).Failure?
    decreases |events| - n
  {
    if n < |events| {
      assert events[..n + 1][..n] == events[..n];
      PairFailureStays(events, n + 1);
    } else {
      assert events[..n] == events;
    }
  }

  /** The loop of postprocess, then its sort. */
  method Postprocess(parsedTrack: seq<Event>) returns (r: Result<seq<Played>, MidiError>)
    ensures r == PostprocessSpec(parsedTrack)
  {
    var currentlyPlaying: map<Option<Byte>, Playing> := map[];
    var postprocessed: seq<Played> := [];
    var runningTime := 0;
    var i := 0;
    while i < |parsedTrack|
      invariant i <= |parsedTrack|
      invariant Pair(parsedTrack[..i]) == Success(Pairing(currentlyPlaying, postprocessed, runningTime))
    {
      var currentCommand := parsedTrack[i];
      assert parsedTrack[..i + 1][..i] == parsedTrack[..i];
      runningTime := runningTime + currentCommand.time;
      if IsNoteStop(currentCommand) {
        var key := NoteKey(currentCommand);
        if key !in currentlyPlaying {
          PairFailureStays(parsedTrack, i + 1);
          return Failure(UnmatchedNoteOff);
        }
        var open := currentlyPlaying[key];
        postprocessed := postprocessed + [PlayedNote(key, PianoKey(currentCommand), Velocity(open.command),
                                                     open.startTime, runningTime - open.startTime, open.command.kind)];
        currentlyPlaying := currentlyPlaying - {key};
      } else if currentCommand.kind == NoteOn {
        currentlyPlaying := currentlyPlaying[NoteKey(currentCommand) := Playing(currentCommand, runningTime)];
      } else {
        postprocessed := postprocessed + [Command(currentCommand, runningTime)];
      }
      i := i + 1;
    }
    assert parsedTrack[..i] == parsedTrack;
    r := Success(SortByStart(postprocessed));
  }
}
