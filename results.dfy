/** Failure-carrying values shared by the scanner, the reader and the writer.
    Each error constructor stands for one kind of failure site in the Python
    code; which exceptions each covers is listed beside it. */
module Results {

  datatype Option<T> = None | Some(value: T)

  datatype Error =
    | StructError        // struct.error from the header, chunk and 'fmt ' unpacks and the writer's packs
    | WrongRiffType      // ValueError "expecting RIFF type ..."
    | NotRiff            // ValueError "RIFF header not found"
    | BadChunkLength     // ValueError "bad chunk length"
    | ChunkNotFound      // ValueError "chunk type ... not found"
    | UnsupportedFormat  // ValueError "unsupported RIFF format"
    | ZeroRate           // ZeroDivisionError: the duration divides by a sample rate of 0
    | NoDecoder          // UnboundLocalError: no decoder is bound for 9..15 bits
    | BadStride          // ValueError "stride must be 1" (reader)
    | IndexOutOfRange    // IndexError (reader scalar index)
    | ShortData          // a decoder handed fewer bytes than it needs: TypeError, IndexError,
                         // struct.error or ValueError, depending on the decoder
    | BadSliceStep       // IndexError "slice step must be 1" (writer)
    | InvalidSlice       // IndexError "invalid slice parameters" (writer)
    | SizeMismatch       // ValueError "size mismatch in slice assignment"
    | OutOfSequence      // ValueError "WaveFileWriter assignments must be in seq"
    | ShapeMismatch      // ValueError "assigning array shape ..."
    | Closed             // AttributeError: the writer's stream is None after close()
    | UnknownParameter   // ValueError "unknown paramaters: ..."
    | BadConfig          // ValueError "bad nchans or bits_per_samp"

  datatype Result<T> = Ok(value: T) | Err(error: Error)

  /** Outcome of an operation that only changes state. */
  datatype Status = Done | Failed(error: Error)
}
