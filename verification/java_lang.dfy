/** The Java-level notions the rest of the model talks about: classes, the values that
    travel through a connection, and throwables. */
module JavaLang {

  /** A class, as far as codec resolution and routing look at it: its binary name and
      whether it implements protobuf's `Message` or `java.io.Serializable`. Classes
      are compared by value, standing for the identity of `Class` objects. */
  datatype JavaClass = JavaClass(name: string, isMessage: bool, isSerializable: bool)

  /** `Class.toString()` for a class that is not an interface. */
  function Describe(cls: JavaClass): string
  {
    "class " + cls.name
  }

  /** An object: its runtime class and an identity standing for its contents. */
  datatype Value = Value(cls: JavaClass, id: nat)

  /** How a throwable raised outside the model is classified by the `catch` clauses
      that look at it. */
  datatype ThrowableKind = CheckedException | UncheckedException | Error

  /** The throwables the modelled code raises, plus every throwable raised by code this
      model does not contain (codecs, suppliers, consumers, user handlers, the channel),
      which is known only by an identity and its kind. */
  datatype Throwable =
    | IllegalArgument(message: string)
    | IllegalState(message: string, cause: Throwable)
    | NullPointer(message: string)
    // the message-less `NullPointerException` of `Objects.requireNonNull(x)`
    | NullValue
    | NoSuchElement(message: string)
    | SerializationRuntime(message: string)
    | WrappedRuntime(message: string, cause: Throwable)
    | RequestHandlerFailure(cause: Throwable)
    | ClientFailure(message: string, cause: Throwable)
    | EncoderFailure(cause: Throwable)
    | UnsupportedOperation(message: string)
    | NumberFormat(message: string)
    | Raised(id: nat, kind: ThrowableKind)

  /** Whether `catch (Exception e)` catches it: everything but an `Error`. */
  predicate IsException(t: Throwable)
  {
    !(t.Raised? && t.kind == Error)
  }
}
