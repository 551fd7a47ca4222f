/** What int() makes of a JSON value. */
module Conversions {
  import opened Prelude
  import opened Json

  /** A number, a ValueError or TypeError, or the OverflowError of an infinity. */
  datatype Converted = Whole(n: int) | BadValue | Overflow

  /** A value that equals an integer is converted to it; null, lists and dictionaries are refused; what
      becomes of strings and fractions is any function `other`. */
  function ToInt(other: Json -> Converted, x: Json): (c: Converted)
    ensures IntegerOf(Some(x)).Some? ==> c == Whole(IntegerOf(Some(x)).value)
    ensures x.Null? || x.Arr? || x.Obj? ==> c == BadValue
  {
    match IntegerOf(Some(x))
    case Some(n) => Whole(n)
    case None => if x.Str? || x.Float? then other(x) else BadValue
  }
}
