/** Recognising a composed (NFC) Hangul syllable. */
module Nfc {
  import Utils

  const HangulBase: nat := 0xAC00
  const HangulLast: nat := 0xD7A3

  predicate IsCompleteHangul(u: nat) {
    HangulBase <= u && u <= HangulLast
  }

  /** A string holding exactly one character, and that character a composed syllable. */
  predicate IsNfcHangul(s: seq<nat>) {
    if |s| != 1 then false else IsCompleteHangul(s[0])
  }

  /** The single-character form used by `HangulLetter::parse_from_char`. */
  predicate IsNfcHangulChar(c: nat) {
    IsCompleteHangul(c)
  }

  /** The syllable-block test here agrees with the one in the utilities on every input. */
  lemma SameSyllableBlock(u: nat)
    ensures IsCompleteHangul(u) <==> Utils.IsCompleteHangul(u)
    ensures IsNfcHangulChar(u) <==> Utils.IsCompleteHangul(u)
  {
  }

  /** One code point, in the syllable block: nothing more, nothing less. */
  lemma NfcHangulCharacterised(s: seq<nat>)
    ensures IsNfcHangul(s) <==> |s| == 1 && Utils.IsCompleteHangul(s[0])
    ensures IsNfcHangul(s) <==> |s| == 1 && IsNfcHangulChar(s[0])
  {
  }

  /** "가", "힣" and "한" are accepted; "ㄱㅏ", "ㄱ", "가나", "a" and "" are not. */
  lemma NfcHangulExamples()
    ensures IsNfcHangul(['가' as nat]) && IsNfcHangul(['힣' as nat]) && IsNfcHangul(['한' as nat])
    ensures !IsNfcHangul(['ㄱ' as nat, 'ㅏ' as nat])
    ensures !IsNfcHangul(['ㄱ' as nat])
    ensures !IsNfcHangul(['가' as nat, '나' as nat])
    ensures !IsNfcHangul(['a' as nat])
    ensures !IsNfcHangul([])
  {
  }
}
