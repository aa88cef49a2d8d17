/** The failures the type-identity helpers can raise, one constructor per exception path. */
module Errors {

  datatype Error =
    /** `GetTypeSize` on a type outside the fixed-size table (`NotSupportedException`). */
    | NotSupported
    /** The stream ended before a value could be read completely. */
    | EndOfStream
    /** A length prefix decoded to a negative `int` (`new byte[length]` throws). */
    | NegativeLength(length: int)
    /** `Type.GetType(name, true)` found no type of that name. */
    | TypeLoad(typeName: string)
    /** A session type id that has not been assigned yet. */
    | TypeIdOutOfRange(typeId: nat)
    /** A field list too long for the one-byte count of a type manifest (corrected encoder only). */
    | TooManyFields(count: nat)
}
