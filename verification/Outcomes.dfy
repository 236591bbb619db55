/** How a step, a protocol or a bridge operation ends. */
module Outcomes {
  import opened Bytes

  datatype Outcome =
    | Pass
    | Fail(reason: seq<Byte>)
    | TimedOut
}
