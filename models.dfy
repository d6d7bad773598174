/**
 The record shape (Models/Entrant.cs), the 32-bit integer the ids live in,
 and the exceptions the store can raise, as values the controller can inspect.
 */
module Models {
  import opened Nullable
  import opened Text

  /** C#'s int. */
  newtype int32 = x: int | -0x8000_0000 <= x < 0x8000_0000

  const MinInt32: int32 := -0x8000_0000
  const MaxInt32: int32 := 0x7fff_ffff

  /** Interlocked.Increment on an int: adds one with two's-complement wrap-around. */
  function Increment(x: int32): (r: int32)
    ensures r as int == (x as int + 1 - MinInt32 as int) % 0x1_0000_0000 + MinInt32 as int
    ensures x < MaxInt32 ==> x < r
  {
    if x == MaxInt32 then MinInt32 else x + 1
  }

  /** An entrant: its id and its (possibly null) first and last names. */
  datatype Entrant = Entrant(id: int32, firstName: Option<string>, lastName: Option<string>)

  /** The exceptions the store raises, by the C# class the controller catches them as. */
  datatype Exn =
    | ArgumentNull(paramName: Option<string>)   // ArgumentNullException, itself an ArgumentException
    | Argument(paramName: Option<string>)       // ArgumentException
    | EntrantNotFound(id: int32)                // EntrantNotFoundException for the given id
    | Other(message: string)                    // any other Exception

  /** ArgumentNullException derives from ArgumentException, so both reach `catch (ArgumentException)`. */
  predicate IsArgumentException(e: Exn)
  {
    e.ArgumentNull? || e.Argument?
  }

  /** What a store call did: returned a value, or threw. */
  datatype Outcome<+T> = Returned(value: T) | Threw(exn: Exn)

  /** A non-null candidate whose first and last names are both non-blank. */
  predicate HasNames(candidate: Option<Entrant>)
  {
    candidate.Some? && !IsNullOrWhiteSpace(candidate.value.firstName) && !IsNullOrWhiteSpace(candidate.value.lastName)
  }
}
