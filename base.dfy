/** Failure-compatible wrappers and the error outcomes of the message map.
    `None` stands for a .NET `null` reference wherever a reference may be absent. */
module Base {

  datatype Option<+T> = None | Some(value: T)

  /** The exceptions the modelled code raises; "no mapping found" is never one of them. */
  datatype Error =
    | DuplicateKey                // Dictionary.Add with a key that is already present
    | TypeMismatch                // ValueMapper.Find probed with a value that is not exactly of type T
    | TypeKeyOnValueStore         // ValueMapper.Add<TKey>: type keys are not supported on value stores
    | InvalidCast                 // a (T) cast of a value that is not a T: ValueMapper.Add, GetMessage(Type)
    | NullReference               // a member called on null: GetType() on a null value, or a query before any Configure
    | FormatError                 // string.Format: malformed template or a placeholder without an argument
    | NullFormat                  // string.Format with a null template (catalog key not found)
    | MissingDefaultConstructor   // Activator.CreateInstance on a type without a parameterless constructor

  datatype Result<+T> = Ok(value: T) | Err(error: Error)
}
