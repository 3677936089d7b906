/** The values a column or a bound parameter can hold. */
module Values {
  datatype Value = Null | Int(n: int) | Str(s: string)
}
