/**
 * The faults that a schedule can inject into one store or file call. A fault
 * says what the call reports and, separately, whether it took effect.
 */
module Faults {
  /** A store error that proves nothing: no error, error without effect, error after the effect. */
  datatype StoreFault = NoFault | LostBefore | LostAfter

  /** A protected write: done, not done, or done but reported as failed. */
  datatype WriteFault = Written | NotWritten | WrittenUnacknowledged

  /** A call without effect on what is modelled. */
  datatype ReadFault = Readable | Unreadable
}
