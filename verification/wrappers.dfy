/** Failure-carrying datatypes shared by the whole model.

    The Kotlin code signals failure in three ways: a nullable return (`Option`),
    an exception that escapes to the caller (`Throws`), and, in one place, a loop
    that never ends (`Hangs`). */
module Wrappers {

  datatype Option<+T> = None | Some(value: T) {
    function GetOr(default: T): T {
      match this
      case Some(v) => v
      case None => default
    }
  }

  /** The exceptions the modelled code can let escape. */
  datatype Fault =
    | NotPng                  // IllegalArgumentException("Not a PNG")
    | EndOfStream             // EOFException from DataInputStream.readFully/readInt
    | NegativeArraySize       // ByteArray(length) with a negative chunk length
    | InflateFailed           // ZipException/EOFException from InflaterInputStream
    | NotJsonObject           // JSONException from JSONObject(text)
    | StringIndexOutOfBounds  // String.substring with inverted bounds
    | StackOverflow           // unbounded recursion in traverseToText
    | WorkflowParseFailed     // failure inside ComfyUiParser.parseWorkflow

  /** The observable end of a computation: a value, an escaping exception, or no end at all. */
  datatype Outcome<+T> = Ok(value: T) | Throws(fault: Fault) | Hangs {
    predicate IsFailure() {
      !Ok?
    }

    function PropagateFailure<U>(): Outcome<U>
      requires !Ok?
    {
      match this
      case Throws(f) => Throws(f)
      case Hangs => Hangs
    }

    function Extract(): T
      requires Ok?
    {
      value
    }
  }

  function FromOption<T>(o: Option<T>, fault: Fault): (r: Outcome<T>)
    ensures r.Ok? <==> o.Some?
    ensures r.Ok? ==> r.value == o.value
    ensures !r.Ok? ==> r == Throws(fault)
  {
    match o
    case Some(v) => Ok(v)
    case None => Throws(fault)
  }
}
