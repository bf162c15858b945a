/** The CRYPT_ error codes that the modelled functions return. `SetupFailed` stands for whatever a cipher's setup
    returned. */
module Errors {
  datatype Status = Ok | InvalidKeySize | InvalidRounds | InvalidArg | BufferOverflow | HashOverflow | SetupFailed
}
