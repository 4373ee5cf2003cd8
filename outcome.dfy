/** The outcome of an operation that can raise: a value, or the exception
    Python would raise, reduced to its kind and the offending value. */
module Outcome {
  import StructFields

  datatype Error =
    | OutOfBounds(offset: int)     // a read past the end of the buffer (IndexError, struct.error)
    | MissingKey(key: string)      // a dict or struct lookup of an absent key (KeyError)
    | BadIndex(index: int)         // a list or tuple index out of range (IndexError)
    | UnknownTag(tag: int)         // a type tag with no table entry (KeyError)
    | BadEnumValue(value: int)     // a value no member of an enum has (ValueError)
    | NoneValue(name: string)      // an attribute of a field that is None (AttributeError)
    | MissingField(field: StructFields.Key)  // a struct field the layout does not have (KeyError)
    | WrongType(field: StructFields.Key)     // a struct field of another type than its use needs (TypeError)

  /** A value, or the exception raised instead; `:-` passes the exception on. */
  datatype Result<T> = Ok(value: T) | Err(error: Error)
  {
    predicate IsFailure()
    {
      Err?
    }

    function PropagateFailure<U>(): Result<U>
      requires Err?
    {
      Err(error)
    }

    function Extract(): T
      requires Ok?
    {
      value
    }
  }

  datatype Option<T> = None | Some(value: T)
}
