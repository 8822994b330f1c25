/** What more than one part of the model uses. */
module Common {

  datatype Option<T> = None | Some(value: T)

  /** A hex digit as the C library prints it. */
  function HexDigit(d: nat): char
    requires d < 16
  {
    if d < 10 then '0' + d as char else 'a' + (d - 10) as char
  }
}
