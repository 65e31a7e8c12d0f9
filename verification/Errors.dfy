/** The error codes of include/reflex_types.h.  `PcOutOfRange` is the fault code that
    reflex_vm_validate_state returns in place of an error code. */
module Errors {

  datatype Err =
    | Ok
    | Fail
    | NoMem
    | InvalidArg
    | InvalidState
    | InvalidSize
    | NotFound
    | NotSupported
    | Timeout
    | InvalidResponse
    | InvalidCrc
    | InvalidVersion
    | PcOutOfRange

  datatype Option<+T> = None | Some(value: T)
}
