/** Data placement on a 32-bit bus (class LoadOp in bus.h). */
module LoadOps {
  import opened CBus
  import opened Common

  datatype LoadOp =
    | DISCARD
    | SIZE1_SHT0 | SIZE1_SHT8 | SIZE1_SHT16 | SIZE1_SHT24
    | SIZE2_SHT0 | SIZE2_SHT16
    | SIZE4_SHT0

  predicate IsWidth(width: int) {
    width == 1 || width == 2 || width == 4
  }

  /** The operation for an access of the given width at addr. */
  function Parse(width: int, addr: int): LoadOp
    requires IsWidth(width)
  {
    if width == 4 then SIZE4_SHT0
    else if width == 2 then if addr % 4 >= 2 then SIZE2_SHT16 else SIZE2_SHT0
    else match addr % 4
      case 1 => SIZE1_SHT8
      case 2 => SIZE1_SHT16
      case 3 => SIZE1_SHT24
      case _ => SIZE1_SHT0
  }

  function StrobeOf(op: LoadOp): Strobe {
    match op
    case SIZE4_SHT0 => 0xf
    case SIZE2_SHT16 => 0xc
    case SIZE2_SHT0 => 0x3
    case SIZE1_SHT24 => 0x8
    case SIZE1_SHT16 => 0x4
    case SIZE1_SHT8 => 0x2
    case SIZE1_SHT0 => 0x1
    case DISCARD => 0x0
  }

  function MaskOf(op: LoadOp): Word {
    match op
    case SIZE4_SHT0 => 0xffffffff
    case SIZE2_SHT16 => 0xffff0000
    case SIZE2_SHT0 => 0x0000ffff
    case SIZE1_SHT24 => 0xff000000
    case SIZE1_SHT16 => 0x00ff0000
    case SIZE1_SHT8 => 0x0000ff00
    case SIZE1_SHT0 => 0x000000ff
    case DISCARD => 0x00000000
  }

  /** Two words agree in the bits of a mask. */
  predicate SameUnder(a: Word, b: Word, mask: Word) {
    (a ^ b) & mask == 0
  }

  /** Put data on the bus. */
  function Place(op: LoadOp, data: Word): Word {
    match op
    case SIZE1_SHT24 => data << 24
    case SIZE2_SHT16 => data << 16
    case SIZE1_SHT16 => data << 16
    case SIZE1_SHT8 => data << 8
    case _ => data
  }

  /** Take data from the bus. */
  function Apply(op: LoadOp, data: Word): Word {
    match op
    case DISCARD => 0
    case SIZE1_SHT24 => data >> 24
    case SIZE2_SHT16 => data >> 16
    case SIZE1_SHT16 => data >> 16
    case SIZE1_SHT8 => data >> 8
    case _ => data
  }

  // The case falls through from the word to the halfword to the byte; each narrower write repeats bits of the wider.

  function WriteHalf(cell: Word, value: Word): Word {
    (cell & 0xffff0000) | (value & 0x0000ffff)
  }

  function WriteByte(cell: Word, value: Word): Word {
    (cell & 0xffffff00) | (value & 0x000000ff)
  }

  lemma WordFallsThrough(value: Word)
    ensures WriteByte(WriteHalf(value, value), value) == value
  {
  }

  lemma HalfFallsThrough(cell: Word, value: Word)
    ensures WriteByte(WriteHalf(cell, value), value) == WriteHalf(cell, value)
  {
  }

  /** The variable that held `cell` after taking data from the bus into it: as many bytes as the access is wide. */
  function Stored(op: LoadOp, data: Word, cell: Word): Word {
    match op
    case DISCARD => cell
    case SIZE4_SHT0 => Apply(op, data)
    case SIZE2_SHT16 => WriteHalf(cell, Apply(op, data))
    case SIZE2_SHT0 => WriteHalf(cell, Apply(op, data))
    case _ => WriteByte(cell, Apply(op, data))
  }

  /** Take data from the bus and write it to the variable `cell`; every case falls through to the narrower ones. */
  method ApplyTo(op: LoadOp, data: Word, cell: Word) returns (cell': Word)
    ensures cell' == Stored(op, data, cell)
  {
    var value := Apply(op, data);
    cell' := cell;
    if op == SIZE4_SHT0 {
      cell' := value;
    }
    if op == SIZE4_SHT0 || op == SIZE2_SHT16 || op == SIZE2_SHT0 {
      cell' := WriteHalf(cell', value);
    }
    if op != DISCARD {
      cell' := WriteByte(cell', value);
    }
    WordFallsThrough(value);
    HalfFallsThrough(cell, value);
  }

  /** Strobe and mask of an operation name the same bytes. */
  lemma StrobeIsMask(op: LoadOp)
    ensures STROBE_TO_MASK[StrobeOf(op)] == MaskOf(op)
  {
  }
}
