/** Range predicates for the composed-syllable block and the compatibility-jamo block. */
module Utils {

  const HangulBase: nat := 0xAC00
  const HangulLast: nat := 0xD7A3
  const CompatJamoBase: nat := 0x3131
  const CompatJamoLast: nat := 0x318E

  /** A precomposed Hangul syllable (NFC form). */
  predicate IsCompleteHangul(u: nat) {
    HangulBase <= u && u <= HangulLast
  }

  /** A compatibility jamo, the standalone letters used for display. */
  predicate IsCompatibilityJamo(u: nat) {
    CompatJamoBase <= u && u <= CompatJamoLast
  }

  /** A Unicode scalar value: what a Rust `char` may hold. */
  predicate IsScalarValue(u: nat) {
    u < 0xD800 || (0xE000 <= u && u <= 0x10FFFF)
  }

  /** The syllable block is exactly 0xAC00..0xD7A3: its two ends are in, their neighbours are out. */
  lemma CompleteHangulBoundaries()
    ensures IsCompleteHangul(0xAC00) && IsCompleteHangul(0xD7A3)
    ensures !IsCompleteHangul(0xABFF) && !IsCompleteHangul(0xD7A4)
    ensures !IsCompleteHangul('a' as nat)
  {
  }

  /** 'ㄱ' and 'ㅏ' are compatibility jamo, '가' is not. */
  lemma CompatibilityJamoExamples()
    ensures IsCompatibilityJamo('ㄱ' as nat) && IsCompatibilityJamo('ㅏ' as nat)
    ensures !IsCompatibilityJamo('가' as nat)
  {
  }

  /** No code point is both a composed syllable and a compatibility jamo. */
  lemma BlocksDisjoint(u: nat)
    ensures !(IsCompleteHangul(u) && IsCompatibilityJamo(u))
  {
  }
}
