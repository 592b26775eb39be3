/** The error type of the battery reader (src/error.rs). */
module Errors {

  /** The two ways reading a battery attribute can fail. */
  datatype BatteryError =
    | IoError          // the attribute file could not be opened or read
    | ConversionError  // the file was read, but its text did not parse

  /** The kinds of `std::io::Error` an attribute read can raise; only their existence matters. */
  datatype IoErrorKind = NotFound | PermissionDenied | InvalidData | Other

  /** A `std::io::Error`: a kind and the operating system's message. */
  datatype IoFailure = IoFailure(kind: IoErrorKind, message: string)

  /** `impl Display for BatteryError`. */
  function Message(e: BatteryError): (m: string)
    ensures m == "IO Error" <==> e == IoError
    ensures m == "Conversion Error" <==> e == ConversionError
  {
    match e
    case IoError => "IO Error"
    case ConversionError => "Conversion Error"
  }

  /** `impl Error for BatteryError`: `description`. */
  function Description(e: BatteryError): (d: string)
    ensures d == "Error reading battery files" <==> e == IoError
    ensures d == "Unable to convert data" <==> e == ConversionError
  {
    match e
    case IoError => "Error reading battery files"
    case ConversionError => "Unable to convert data"
  }

  /** `impl From<io::Error> for BatteryError`, used by `?` on file operations. */
  function FromIo(failure: IoFailure): (e: BatteryError)
    ensures e == IoError
  {
    IoError
  }

  /** Both texts are the fixed strings, and each tells the two variants apart. */
  lemma ErrorTexts(a: BatteryError, b: BatteryError)
    ensures Message(IoError) == "IO Error" && Message(ConversionError) == "Conversion Error"
    ensures Description(IoError) == "Error reading battery files"
    ensures Description(ConversionError) == "Unable to convert data"
    ensures Message(a) == Message(b) <==> a == b
    ensures Description(a) == Description(b) <==> a == b
  {
  }

  /** The conversion forgets the kind and the message of the `io::Error`. */
  lemma FromIoForgetsDetail(f: IoFailure, g: IoFailure)
    ensures FromIo(f) == FromIo(g) == IoError
  {
  }
}
