/** Results for the operations whose Python counterparts raise. */
module Outcomes {

  datatype Option<+T> = None | Some(value: T)

  /** The exceptions the table builder can raise. */
  datatype Error =
    | EmptyMinimum      // min() of an empty sequence (ValueError)
    | IndexOutOfRange   // a poker_data table read past its end (IndexError)
    | ByteOutOfRange    // bytes() of a value outside 0..255 (ValueError)
    | ScoreOutOfRange   // struct.pack('<H') of a value outside 0..65535 (struct.error)
    | CountMismatch     // assert len(offsets) == 2598960 failing (AssertionError)

  datatype Result<+T> = Ok(value: T) | Err(error: Error)
}
