/** Option and Result, the decoder's way of saying "undefined" and "threw". */
module Wrappers {

  datatype Option<+T> = None | Some(value: T)

  datatype Result<+R, +E> = Success(value: R) | Failure(error: E)

  /** Every way the decoder can fail: each is an exception thrown by the JavaScript code. */
  datatype MidiError =
    | MaskOutOfRange      // calculateMask: bitsToMaskOn outside 0..8
    | SysExUnterminated   // the system-exclusive handler found no 0xF7
    | RangeError          // a DataView read past the end of the buffer
    | NotMidi             // getMidi: the header signature is not recognised
    | FileTooLarge        // getMidi: the file is over the size threshold
    | UnmatchedNoteOff    // postprocess: a note-off whose pitch is not playing
    | MissingTempo        // getMidi: track 0 has no set-tempo meta-event
}
