/** Values shared by the whole model: conversation messages and the
    Python exceptions the core can raise. */
module Types {

  /** The two roles that appear in the conversation buffer. */
  datatype Role = User | Assistant

  /** One `{"role": ..., "content": ...}` entry of the conversation buffer. */
  datatype Message = Message(role: Role, content: string)

  datatype Option<+T> = None | Some(value: T)

  datatype Result<+R, +E> = Success(value: R) | Failure(error: E)

  /** The exceptions the modelled code lets escape. */
  datatype Error =
    | IndexError      // a list index out of range
    | AttributeError  // `.lower()` called on None

  /** The elements of an optional value, as a sequence of length 0 or 1. */
  function OptionToSeq<T>(o: Option<T>): (s: seq<T>)
    ensures |s| <= 1
    ensures o.None? ==> s == []
    ensures o.Some? ==> s == [o.value]
  {
    match o
    case None => []
    case Some(v) => [v]
  }

  /** The last element of a non-empty sequence (Python's `xs[-1]`). */
  function Last<T>(xs: seq<T>): T
    requires |xs| > 0
  {
    xs[|xs| - 1]
  }
}
