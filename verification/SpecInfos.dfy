/** What the format compiler keeps of one specifier (`struct SpecInfo`). */
module SpecInfos {
  /** A width or precision: written in the format, or taken from an argument (`*`). */
  datatype Field = Fixed(value: int) | Dynamic

  /** The integer length modifiers; the last one written wins. */
  datatype Length = Plain | CharInt | ShortInt | LongInt | LongLongInt | IntMax | PtrDiff | SizeT

  datatype Flags = Flags(alt: bool, zeroPad: bool, leftAdjust: bool, longDouble: bool, length: Length)

  /** `begin..end` is the literal text in front of the specifier, in squeezed coordinates;
      `terminal` is NUL for the piece behind the last specifier, `sign` is NUL for none. */
  datatype SpecInfo = SpecInfo(begin: nat, end: nat, flags: Flags, width: Field, prec: Field,
                               sign: char, terminal: char, wFirst: bool)

  const NUL: char := '\0'

  /** A specifier as the parser makes it. */
  predicate SpecOk(s: SpecInfo) {
    && s.sign in [NUL, '+', ' ']
    && (s.width.Fixed? ==> s.width.value >= 0)
    && (s.prec.Fixed? ==> s.prec.value >= -1)
  }
}
