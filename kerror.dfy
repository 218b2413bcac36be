/** The kernel module's error codes (Core::Error), as far as the modelled code uses them. */
module KError {

  datatype Error =
    | Success
    | InvalidValue
    | InvalidState
    | BadMagic
    | BadSize
    | DataCorrupt
    | Overlap
    | NotFound
    | AlreadyExists
    | UnknownCode
    | NoMemory
    | Cancelled
    | UnexpectedEOF
    | Other(code: int)   // any other code handed up by the device, the copy routines or the volume
}
