/** What the modules share. */
module Common {

  /** A machine word; `long` and addresses are 32 bits wide. */
  type Word = bv32

  const TWO_32: int := 0x1_0000_0000

  // The end of a C string.
  const NUL: char := '\0'

  datatype Option<T> = None | Some(value: T)

  lemma HeadIn(s: seq<int>)
    requires s != []
    ensures var x := s[0]; x in s
  {
  }
}
