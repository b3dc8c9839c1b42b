# Standard MIDI File decoder, modelled in Dafny

This project models the MIDI file decoder of the piano visualiser
(`assets/js/midi/`). The decoder takes the bytes of a Standard MIDI File and
produces:

- the header fields;
- per track, the list of channel events with their delta-times and the meta-events seen;
- per track with music, the notes paired into start time and duration, sorted by start time.

The model follows the JavaScript as written, quirks included. Each source
file maps to one module:

| source | module(s) | form |
|---|---|---|
| `parse-quantity.js` | `ParseQuantity` (`parse_quantity.dfy`) | `twiddle` is a method with a loop proved against a fold; `calculateMask` is a function |
| `midi-utility-functions.js` | `MidiUtility` (`midi_utility.dfy`) | the tables and pure helpers are functions; `parseDataViewSegment`, `parseTempo` and the SysEx handler are methods with loops |
| `track.js`, `parseTrack` | `TrackScan` (`track_scan.dfy`) | one loop iteration is the function `Step` on a `ScanState`; the method `ParseTrack` is proved to compute the loop `Run` |
| `track.js`, properties of `parseTrack` | `TrackProperties`, `TrackExamples` | lemmas |
| `track.js`, `postprocess` | `Postprocess` (`postprocess.dfy`) | one iteration is `PairStep` on a `Pairing` (open-notes map, output list, clock); the method `Postprocess` is proved to compute `PostprocessSpec` |
| `midi-serializer.js` | `MidiSerializer` (`midi_serializer.dfy`) | `parseHeader` and `getMidi`'s decisions are functions; `parseTracks` is two methods with loops, proved against `ScanChunks` and `AttachAll` |

Supporting modules:

- `Wrappers`: `Option`, `Result` and `MidiError`. Every exception the JavaScript throws is a `Failure`.
- `Bytes`: bytes, JavaScript's 32-bit integer register, `&`, and reads and slices past the end of an array.

Modelling conventions:

- The constants of `midi-constants.js` are written out where they are used.
- A JavaScript read past the end of an array gives `undefined`; here it is `None`.
- An index that becomes `NaN` ends the loop. The model sets it to the track length.
- A `DataView` read past the end throws a `RangeError`; here it is `Failure(RangeError)`.

## Model

| member | source | states |
|---|---|---|
| `Bytes.Signed32` | assets/js/midi/parse-quantity.js:43-46 | the 32-bit register read as a signed number: it lies in [-2^31, 2^31), is the unsigned value or that minus 2^32, and is unchanged below 2^31 |
| `Bytes.MaskKeepsLowBits` | assets/js/midi/parse-quantity.js:46 | `a & (2^k - 1)` is `a mod 2^k` for every non-negative `a` |
| `Bytes.At` | assets/js/midi/track.js:18-20 | an array read is defined exactly inside the array and then gives the element |
| `Bytes.JsSlice` | assets/js/midi/track.js:31 | `slice(from, to)` has `min(to, length) - from` elements (none when that is not positive), element k being the array's element `from + k` |
| `ParseQuantity.CalculateMask` | assets/js/midi/parse-quantity.js:67-70 | succeeds exactly for 0..8 bits, otherwise the range error; the mask is below 256 and AND-ing with it keeps the remainder modulo 2^bits |
| `ParseQuantity.MaskValue` | assets/js/midi/parse-quantity.js:67-70 | for 0..8 bits the mask is 2^bits − 1, the number with exactly those low bits set |
| `ParseQuantity.SevenBitMask` | assets/js/midi/parse-quantity.js:21-24 | the mask the VLQ decoder uses is 0x7F |
| `ParseQuantity.Twiddle` | assets/js/midi/parse-quantity.js:31-50 | fails exactly when the shift is outside 0..8; otherwise the result is the big-endian fold of the masked bytes, reduced modulo 2^32 and read as a signed 32-bit number |
| `ParseQuantity.ParseVariableLengthValue` | assets/js/midi/parse-quantity.js:21-24 | the value is `VlqValue` of the bytes: the 7-bit fold in the 32-bit register |
| `ParseQuantity.SingleByteUnshifted` | assets/js/midi/parse-quantity.js:42-44 | one byte below 0x80 decodes to itself |
| `ParseQuantity.FoldIsDigitSum` | assets/js/midi/parse-quantity.js:36-47 | the shift-and-OR fold equals the sum of `(b_i & 0x7F) * 128^(n-1-i)` |
| `ParseQuantity.LeadingZerosIgnored` | assets/js/midi/parse-quantity.js:34-49 | leading zero bytes do not change the value, and no bytes decode to 0 |
| `ParseQuantity.VlqValueOfSmall` | assets/js/midi/parse-quantity.js:43-46 | below 2^31 the register does not wrap and the value is the fold itself |
| `ParseQuantity.ShortInputInRange` | assets/js/midi/parse-quantity.js:8-13 | one to four bytes decode to a value in [0, 0x0FFFFFFF], without wrapping |
| `ParseQuantity.KnownVectors` | assets/js/test.js:6-13 | the six byte vectors of the project's test script decode to the values it expects |
| `ParseQuantity.VlqRoundTrip` | assets/js/midi/parse-quantity.js:8-13 | every delta-time in [0, 0x0FFFFFFF] encodes to 1-4 bytes, with the top bit set on all but the last, and decodes back to itself |
| `MidiUtility.MessageTable` | assets/js/midi/midi-utility-functions.js:22-55 | `midiMessage` has an entry exactly for nibbles 0x8-0xF, stored under its own nibble; 2 data bytes for 0x8-0xB and 0xE, 1 for 0xC and 0xD, none for 0xF |
| `MidiUtility.KindNibbleRoundTrip` | assets/js/midi/midi-utility-functions.js:22-30 | looking up a kind's nibble in the table gives the kind back |
| `MidiUtility.SystemExclusiveEnd` | assets/js/midi/midi-utility-functions.js:32-40 | succeeds iff 0xF7 occurs, returning the first index that holds it; otherwise the unterminated-SysEx error |
| `MidiUtility.DataViewSegment` | assets/js/midi/midi-utility-functions.js:101-109 | max(0, end - start) bytes, element k being byte start + k; RangeError iff the range is non-empty and ends past the buffer |
| `MidiUtility.ParseDataViewSegment` | assets/js/midi/midi-utility-functions.js:101-109 | the push loop returns `DataViewSegment` |
| `MidiUtility.ParseText` | assets/js/midi/midi-utility-functions.js:166-168 | one character per byte, whose code is the byte |
| `MidiUtility.ParseBytes` | assets/js/midi/midi-utility-functions.js:117-121 | succeeds iff the segment read does, giving the segment's bytes as text |
| `MidiUtility.ParseTextInjective` | assets/js/midi/midi-utility-functions.js:117-121 | two byte runs give the same text iff they are equal |
| `MidiUtility.MagicStrings` | assets/js/midi/midi-constants.js:8-9 | the bytes 4D 54 68 64 and 4D 54 72 6B spell "MThd" and "MTrk" |
| `MidiUtility.IsMidi` | assets/js/midi/midi-utility-functions.js:90-92 | throws iff the buffer is shorter than 4 bytes; otherwise true iff the first four bytes are "MThd" or "MTrk" |
| `MidiUtility.ValidateMidi` | assets/js/midi/midi-utility-functions.js:127-137 | true iff the declared track count equals the number of tracks and the format is at most 2 |
| `MidiUtility.HandleSmpte` | assets/js/midi/midi-utility-functions.js:147-164 | SMPTE iff bit 15 is set, with a division exactly then, equal to (2^31 - (d >> 8)) * (d & 0xFF) |
| `MidiUtility.SmpteTicksPerSecond` | assets/js/midi/midi-utility-functions.js:139-142 | the reading the comment describes: the negated 8-bit frame rate times the ticks per frame |
| `MidiUtility.SmpteStandardRates` | assets/js/midi/midi-utility-functions.js:139-142 | the four SMPTE rates give 24, 25, 29 and 30 frames per second |
| `MidiUtility.SmpteAsWrittenExample` | assets/js/midi/midi-utility-functions.js:156-160 | for 25 fps at 40 ticks per frame, handleSmpte gives 85899336680 where the intended reading gives 1000 |
| `MidiUtility.ParseTempo` | assets/js/midi/midi-utility-functions.js:174-182 | midiTempo is the big-endian base-256 fold of the payload in the 32-bit register |
| `MidiUtility.TempoOfThreeBytes` | assets/js/midi/midi-utility-functions.js:174-182 | a three-byte payload reads as a * 65536 + b * 256 + c, without wrapping |
| `MidiUtility.DefaultTempo` | assets/js/midi/midi-utility-functions.js:174-182 | 07 A1 20 reads as 500000 microseconds per quarter note |
| `MidiUtility.ParseTimeSignature` | assets/js/midi/midi-utility-functions.js:190-197 | a payload of four bytes gives numerator a[0], denominator 2^a[1], clocks a[2] and 32nds a[3]; the denominator is defined iff a[1] exists |
| `MidiUtility.ParseKeySignature` | assets/js/midi/midi-utility-functions.js:199-204 | a payload of two bytes gives key a[0] and minorKey a[1] |
| `MidiUtility.CallMetaHandler` | assets/js/midi/midi-utility-functions.js:3-19 | dispatches to the handler `trackMetadata` stores for the type |
| `TrackScan.ResolveNote` | assets/js/midi/track.js:99-105 | midiNote is data[0], velocity data[1], and pianoNote is midiNote - 20, defined exactly when midiNote is |
| `TrackScan.CreateMessage` | assets/js/midi/track.js:78-97 | time, type and index as given; note-on and note-off carry the note and velocity from the bytes after the index, every other type the sliced data bytes |
| `TrackScan.ReadMetaEvent` | assets/js/midi/track.js:18-39 | the meta-event branch of the loop body computes `MetaStep` |
| `TrackScan.ReadExplicitStatus` | assets/js/midi/track.js:49-57 | the explicit-status branch computes `ExplicitStatusStep` |
| `TrackScan.ReadRunningStatus` | assets/js/midi/track.js:58-68 | the running-status branch computes `RunningStatusStep` |
| `TrackScan.ReadDeltaTimeAndMessage` | assets/js/midi/track.js:41-69 | the delta-time branch computes `DeltaStep` |
| `TrackScan.ParseTrack` | assets/js/midi/track.js:9-76 | the loop returns `ParseTrackSpec`, the state machine run to the end of the track |
| `TrackProperties.ExplicitStepAppends` | assets/js/midi/track.js:49-57 | a status byte after a delta-time adds exactly one event, read from the bytes after its index |
| `TrackProperties.RunningStepAppends` | assets/js/midi/track.js:58-68 | running status adds exactly one event of the previous type, read from the bytes after its index |
| `TrackProperties.ParseTrackWellFormed` | assets/js/midi/track.js:9-76 | every event is read from its own bytes, events are in strictly increasing index order, and every stored meta-event sits under its own subtype and is never end-of-track |
| `TrackProperties.DeltaTimeRead` | assets/js/midi/track.js:41-44 | at the last byte of an encoded delta-time, with its first bytes held back, the time read is the delta-time written |
| `TrackProperties.HoldScan` | assets/js/midi/track.js:70-72 | bytes that are neither a meta start nor a delta end pile up in tempArray |
| `TrackProperties.StatusByteRead` | assets/js/midi/track.js:46-49 | the table reads a written status byte as its message type |
| `TrackProperties.SafeDeltaEncodes` | assets/js/midi/track.js:18 | a delta-time whose encoding never puts 0xFF before a known meta subtype is characterised on the number itself |
| `TrackProperties.SmallDeltasAreSafe` | assets/js/midi/track.js:18 | delta-times below 0x3F80 are never taken for a meta-event |
| `TrackProperties.MessageScan` | assets/js/midi/track.js:41-68 | one encoded channel message, with or without its status byte, is read as one event and leaves the scan at the next message |
| `TrackProperties.EndOfTrackScan` | assets/js/midi/track.js:24-25 | the end-of-track event stops the scan: nothing after it is read |
| `TrackProperties.MessagesScan` | assets/js/midi/track.js:16-73 | the scan passes over a sequence of encoded messages one by one |
| `TrackProperties.EncodedTrackRoundTrip` | assets/js/midi/track.js:9-76 | a track of channel messages sharing status bytes by running status, then end-of-track, parses to exactly those messages in order, with their delta-times, types, notes, velocities and data, and no meta-events |
| `TrackExamples.MetaStored` | assets/js/midi/track.js:18-34 | a meta-event with a handler stores the handler's result for its payload under its subtype, replacing an earlier one, leaves the music alone and resumes `messageLength + 1` bytes after the 0xFF |
| `TrackExamples.StatuslessDeltaDropped` | assets/js/midi/track.js:41-68 | a delta-time followed by a data byte with no running status yet makes no event and drops the held bytes |
| `TrackExamples.PayloadRescanned` | assets/js/midi/track.js:31-34 | the last two bytes of a text payload are scanned again: a text event ending 00 90, followed by 3C 40, also yields a note-on of note 0x3C, velocity 0x40 |
| `TrackExamples.DeltaMisread` | assets/js/midi/track.js:18-34 | a note-on at delta-time 0x3F81, valid in every other respect, is written FF 01 90 3C 40. The scan reads it as a text event of length 0x90 that swallows the end-of-track event, so the track yields no music |
| `Postprocess.Pair` | assets/js/midi/track.js:113-142 | the loop's clock is the prefix sum of the times, every command except a note start adds one output element, and the only failure is an unmatched note stop |
| `Postprocess.PairFailureStays` | assets/js/midi/track.js:113-142 | once the loop has thrown on a prefix it throws on the whole list |
| `Postprocess.FirstCommand` | assets/js/midi/track.js:117-129 | a single command throws iff it stops a note, since nothing is open |
| `Postprocess.NoteClosed` | assets/js/midi/track.js:117-132 | a note start immediately followed by a stop of the same note outputs one note with the start's velocity, the clock at the start as startTime, the stop's delta as duration, and removes the note from the open notes |
| `Postprocess.LastOpen` | assets/js/midi/track.js:132-136 | finds the position of a start of the note that no later command stops or restarts, and finds nothing iff there is no such position |
| `Postprocess.PairOpens` | assets/js/midi/track.js:113-136 | on every list the loop accepts, the open-notes map holds exactly the notes with an unstopped start, each entry being that note-on stamped with the prefix sum of times up to it |
| `Postprocess.StopFailsIff` | assets/js/midi/track.js:117-129 | after an accepted list, one more command throws iff it stops a note that has no unstopped start |
| `Postprocess.OutputGrows` | assets/js/midi/track.js:113-142 | every prefix of an accepted list is accepted, and its output begins the whole list's output |
| `Postprocess.NoteClosedAt` | assets/js/midi/track.js:117-131 | in an accepted list, a stop closes the last unstopped start of its note, however many commands lie between. The note starts at the prefix sum up to that start, lasts until the prefix sum up to the stop, has the start's velocity, and is among the notes postprocess returns |
| `Postprocess.RestrikeReplaces` | assets/js/midi/track.js:133-136 | a second start of an open note replaces the first, with the later start time |
| `Postprocess.PassedThrough` | assets/js/midi/track.js:137-141 | any other command is output unchanged, stamped with the clock after it |
| `Postprocess.UnmatchedStopFails` | assets/js/midi/track.js:122-129 | a stop of a note that is not open makes postprocess throw, whatever follows |
| `Postprocess.DurationsNonNegative` | assets/js/midi/track.js:127 | with non-negative delta-times, open notes start no later than the clock and every duration is non-negative |
| `Postprocess.OutputFromInput` | assets/js/midi/track.js:131-141 | output commands are input commands that neither start nor stop a note, output notes come from note-ons, and a note never closed produces nothing |
| `Postprocess.InsertByStart` | assets/js/midi/track.js:144 | inserting into a sorted list keeps it sorted and adds exactly that element |
| `Postprocess.SortByStart` | assets/js/midi/track.js:144 | the sort's result is ordered by startTime and is a permutation of its input |
| `Postprocess.SortStable` | assets/js/midi/track.js:144 | elements with the same startTime keep their relative order |
| `Postprocess.PostprocessOrder` | assets/js/midi/track.js:144 | postprocess returns the loop's output sorted by start time, as a permutation, with ties in loop order |
| `Postprocess.Postprocess` | assets/js/midi/track.js:108-145 | the loop and sort return `PostprocessSpec` |
| `MidiSerializer.GetUint16` | assets/js/midi/midi-serializer.js:60 | RangeError iff fewer than 2 bytes remain; otherwise a value below 2^16 |
| `MidiSerializer.Uint16RoundTrip` | assets/js/midi/midi-serializer.js:70-72 | a 16-bit field written big-endian reads back as written |
| `MidiSerializer.GetUint32` | assets/js/midi/midi-serializer.js:91 | RangeError iff fewer than 4 bytes remain; otherwise a value below 2^32 |
| `MidiSerializer.Uint32RoundTrip` | assets/js/midi/midi-serializer.js:91 | a 32-bit field written big-endian reads back as written |
| `MidiSerializer.ParseHeader` | assets/js/midi/midi-serializer.js:57-75 | with the misnamed import corrected (see "Left out"): throws iff the buffer is shorter than 14 bytes; the fields are 16-bit; the division is the raw field; isMidi iff the buffer starts with "MThd" or "MTrk" |
| `MidiSerializer.ParseHeaderRoundTrip` | assets/js/midi/midi-serializer.js:58-71 | a header chunk written in the standard layout reads back as its format, track count and raw division, and as MIDI |
| `MidiSerializer.TrackMagicBytes` | assets/js/midi/midi-serializer.js:88-90 | a position is taken for a chunk iff its four bytes are "MTrk" |
| `MidiSerializer.ReadChunk` | assets/js/midi/midi-serializer.js:91-102 | RangeError iff the length field or the declared body runs past the buffer; otherwise the recorded length, startingBytes 2i + 8 as written, and the body [i+8, i+8+length) parsed as a track |
| `MidiSerializer.ChunkReadAt` | assets/js/midi/midi-serializer.js:88-99 | a chunk laid out at i ("MTrk", 32-bit length, body) is recognised and read back with that length and body |
| `MidiSerializer.ScanChunks` | assets/js/midi/midi-serializer.js:87-106 | fails only with RangeError; the chunks come in discovery order, with strictly increasing startingBytes from 2i + 8 on |
| `MidiSerializer.SkipNonMagic` | assets/js/midi/midi-serializer.js:87-90 | positions without "MTrk" are passed over one at a time |
| `MidiSerializer.ScanAt` | assets/js/midi/midi-serializer.js:104 | after a chunk the scan resumes at i + trackLength + 1 |
| `MidiSerializer.ScanEnds` | assets/js/midi/midi-serializer.js:87 | nothing is found at the last four positions |
| `MidiSerializer.TwoChunksScan` | assets/js/midi/midi-serializer.js:87-104 | on two back-to-back chunks of length 4, the first body holding no 'M', the scan resumes at byte 5, inside the first chunk, and finds both chunks with their parsed bodies, with starting bytes recorded as 8 and 32 |
| `MidiSerializer.ReadTrackAt` | assets/js/midi/midi-serializer.js:91-102 | the loop body at an "MTrk" position computes `ReadChunk` |
| `MidiSerializer.FindTracks` | assets/js/midi/midi-serializer.js:84-106 | the first loop of parseTracks returns `ScanChunks` from position 0 |
| `MidiSerializer.AttachAll` | assets/js/midi/midi-serializer.js:108-112 | fails only with an unmatched note stop; keeps every track's metadata and events, and sets playableMusic exactly on tracks with music, to postprocess of that music |
| `MidiSerializer.AttachFailureStays` | assets/js/midi/midi-serializer.js:108-112 | a track whose postprocess throws makes the whole forEach throw |
| `MidiSerializer.ParseTracksSpec` | assets/js/midi/midi-serializer.js:83-115 | fails only with RangeError or an unmatched note stop |
| `MidiSerializer.ParseTracks` | assets/js/midi/midi-serializer.js:83-115 | the two loops return `ParseTracksSpec` |
| `MidiSerializer.FileSizeExceedsThreshold` | assets/js/midi/midi-serializer.js:122-124 | true iff the size is at least one byte over the threshold, the threshold defaulting to 5 MiB |
| `MidiSerializer.SizeLimitInclusive` | assets/js/midi/midi-serializer.js:122-124 | a file of exactly the threshold's size passes and one byte more exceeds it, for the default 5 MiB threshold as for any other |
| `MidiSerializer.GetMidi` | assets/js/midi/midi-serializer.js:16-47 | refuses a file iff it exceeds 5 MiB; a returned file has a header that parses and is MIDI, its parsed tracks, a valid header/track pair, and a tempo event in track 0 |
| `MidiSerializer.GetMidiDropsInvalid` | assets/js/midi/midi-serializer.js:34-36 | a file that parses resolves to nothing iff the track count disagrees or the format exceeds 2 |
| `MidiSerializer.GetMidiReturns` | assets/js/midi/midi-serializer.js:38-46 | a file that passes the size, header, magic, parse and validation tests throws MissingTempo iff there is no track 0 or it has no tempo event, and otherwise resolves to exactly its header and tracks |
| `MidiSerializer.GetMidiRefusesNonMidi` | assets/js/midi/midi-serializer.js:25-30 | a file of 14 bytes to 5 MiB is refused as not MIDI iff it starts with neither "MThd" nor "MTrk" |

## Left out

- Reading the file: `getMidi`'s File, `arrayBuffer`, Promise and error-message text. `GetMidi` starts from the file's bytes, and its errors are `MidiError` values.
- `console.log` calls are not modelled.
- `ticksPerSecond` and parseTempo's `musicTempo` are floating point and are not modelled. `GetMidi` keeps the one effect of the `ticksPerSecond` line: it throws when there are no tracks or track 0 has no tempo event (`MissingTempo`).
- MidiSerializer.ParseHeader: models parseHeader with its import name corrected, a deliberate deviation. As written, `midi-serializer.js:7` imports `handleSmtpe`, but `midi-utility-functions.js:147` exports `handleSmpte`. As a native ES module the serializer therefore fails to link, so `main.js:3` cannot load `getMidi` at all. Under a lenient loader, the call at `midi-serializer.js:61` would throw a TypeError and parseHeader would never return. With the name corrected, the test still reads `.isSmtpe` where the decoder sets `.isSmpte`, so the SMPTE branch is never taken. `ParseHeader` keeps the raw division, and `HandleSmpte` is modelled on its own.
- The `else` branch at `track.js:35-37` cannot be reached, because the enclosing test already requires a known subtype. It is not modelled.
- `parseTrack`'s second and third arguments, and parseTracks' `midiFormatType`, are never used. `track: parsedTrack || rawTrack` always takes the parsed track.
- `controlChangeMessages` and `systemMessages` are never read and are not modelled.
- Status nibble 0xF in `parseTrack`: the table has no data-byte count, so the index becomes NaN. The model makes the one event with empty data and then ends the loop. The SysEx handler is never called by the scanner.
- Postprocess.Postprocess: the source writes `startTime` into the input event objects and pushes those same objects, so the parsed track's events are changed too. The model returns new `Command` values and does not capture that aliasing.
- Postprocess.SortByStart: `Array.prototype.sort` sorts in place and, since ES2019, stably. The model is a functional stable insertion sort on values, and does not capture the in-place update.
- Postprocess.Pair: the clock is an unbounded integer. JavaScript adds doubles, so sums above 2^53 would round; that is not modelled.
- JavaScript object keys are strings. The open-notes map is keyed by `Option<Byte>`, with `None` standing for the key `"undefined"`.
- Differences between the documentation and the code, where the model follows the code:
  - an unmatched note-off throws a TypeError, modelled as `Failure(UnmatchedNoteOff)`;
  - `isMidi` also accepts a file that starts with "MTrk";
  - a meta-event skips only `messageLength + 1` bytes, so its last two payload bytes are scanned again (`TrackExamples.PayloadRescanned`);
  - the chunk scan resumes at `i + trackLength + 1`, inside the chunk just read;
  - `startingBytes` is recorded as `i + (i + 8)` (`MidiSerializer.TwoChunksScan` shows both this and the resume point on two back-to-back chunks);
  - the test for a meta-event (`track.js:18`) looks at any 0xFF byte followed by a known subtype, including one inside a delta-time. A delta-time from 0x3F80 up whose next-to-last seven-bit group is 0x7F is written with such a byte (0x3F81 is written FF 01), and the scan takes it for a meta-event. `TrackExamples.DeltaMisread` shows a well-formed one-note track losing its note this way, and `TrackProperties.EncodedTrackRoundTrip` requires `SafeDelta` to exclude these delta-times.
