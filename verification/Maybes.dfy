/** An optional value: null, undefined, or the other half of a thrown error. */
module Maybes {

  datatype Maybe<+T> = Nothing | Just(value: T)
}
