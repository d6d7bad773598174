/** C# references that may be null. */
module Nullable {

  /** A C# reference that may be null (a name, an entrant, a seed map): None is null. */
  datatype Option<+T> = None | Some(value: T)
}
