/** Shared vocabulary of the odxtools codec core: bytes, optional values,
    attributes that may not exist yet, the library's two error severities and
    the atomic values that flow through encoding and decoding. */
module Odx {

  type byte = b: int | 0 <= b < 256

  datatype Option<+T> = None | Some(value: T)

  /** A Python attribute that is only created by a later resolution phase:
      reading it while Absent raises AttributeError. */
  datatype Slot<+T> = Absent | Present(value: T)

  /** The exceptions the core raises (hard failures). */
  datatype Failure =
    | OdxError(message: string)        // odxraise / odxassert / odxrequire in strict mode
    | NotImplemented(message: string)  // NotImplementedError
    | RuntimeError(message: string)
    | AttributeError(message: string)  // reading an attribute that was never set
    | ConversionError(message: string) // int(...) or from_string rejecting its text
    | OverflowError(message: string)   // int.to_bytes on a value that does not fit
    | Unresolved(reference: string)    // an ODXLINK or SNREF that names nothing

  /** Either the operation completed, with the soft failures it reported on the
      way (the diagnostic side channel), or it was aborted by a hard failure. */
  datatype Outcome<+T> = Ok(value: T, warnings: seq<string>) | Err(failure: Failure)

  /** odxraise: aborts in strict mode, otherwise reports and goes on with
      `fallback`. */
  function Raise<T>(strict: bool, message: string, fallback: T): (r: Outcome<T>)
    ensures r.Err? <==> strict
    ensures r.Ok? ==> r.value == fallback && r.warnings == [message]
  {
    if strict then Err(OdxError(message)) else Ok(fallback, [message])
  }

  /** odxassert: reports `message` (see Raise) when the condition fails. */
  function Assert(strict: bool, condition: bool, message: string): (r: Outcome<()>)
    ensures condition ==> r == Ok((), [])
    ensures !condition ==> r == Raise(strict, message, ())
  {
    if condition then Ok((), []) else Raise(strict, message, ())
  }

  /** odxrequire: reports `message` (see Raise) when the value is missing and
      otherwise passes it through; in non-strict mode the None goes on. */
  function Require<T>(strict: bool, x: Option<T>, message: string): (r: Outcome<Option<T>>)
    ensures x.Some? ==> r == Ok(x, [])
    ensures x.None? ==> r == Raise(strict, message, None)
  {
    if x.Some? then Ok(x, []) else Raise(strict, message, None)
  }

  /** Sequencing of two steps: the second only runs when the first completed,
      and the reported warnings accumulate in order. */
  function Then<T>(first: Outcome<()>, second: Outcome<T>): (r: Outcome<T>)
    ensures first.Err? ==> r == Err(first.failure)
    ensures first.Ok? && second.Err? ==> r == second
    ensures first.Ok? && second.Ok? ==> r == Ok(second.value, first.warnings + second.warnings)
  {
    match first
    case Err(f) => Err(f)
    case Ok(_, w1) =>
      match second
      case Err(f) => Err(f)
      case Ok(v, w2) => Ok(v, w1 + w2)
  }

  /** The base data types of ODX (odxtypes.DataType). */
  datatype DataType =
    | AInt32 | AUInt32 | AFloat32 | AFloat64
    | AAsciiString | AUtf8String | AUnicode2String | AByteField

  /** The ODX name of a base data type. */
  function DataTypeName(d: DataType): string
  {
    match d
    case AInt32 => "A_INT32"
    case AUInt32 => "A_UINT32"
    case AFloat32 => "A_FLOAT32"
    case AFloat64 => "A_FLOAT64"
    case AAsciiString => "A_ASCIISTRING"
    case AUtf8String => "A_UTF8STRING"
    case AUnicode2String => "A_UNICODE2STRING"
    case AByteField => "A_BYTEFIELD"
  }

  /** AtomicOdxType: the values a diag coded type encodes and decodes.
      Integers are restricted to the naturals. */
  datatype AtomicValue =
    | IntValue(n: nat)
    | BytesValue(bytes: seq<byte>)
    | FloatValue(x: real)
    | StringValue(s: string)
}
