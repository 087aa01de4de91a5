/** One Hangul syllable, parsed from its composed form or from its conjoining jamo,
    and its display as compatibility letters (compound finals split in two). */
module Letter {
  import opened Wrappers
  import Utils
  import Nfc
  import Nfd
  import ChoseongJamo
  import JungseongJamo
  import JongseongJamo

  /** `unicode` is the syllable as written (one code point, or 2-3 conjoining jamo);
      in this model it is also the letter's `value` string. */
  datatype HangulLetter = HangulLetter(
    unicode: seq<nat>,
    choseong: ChoseongJamo.Choseong,
    jungseong: JungseongJamo.Jungseong,
    jongseong: Option<JongseongJamo.Jongseong>)

  /** Every jamo of the letter is a consistent pair of code points. */
  ghost predicate WellFormed(l: HangulLetter) {
    && ChoseongJamo.Valid(l.choseong)
    && JungseongJamo.Valid(l.jungseong)
    && (l.jongseong.Some? ==> JongseongJamo.Valid(l.jongseong.value))
  }

  /** The jamo of a decomposition. Each `Extract` is an `unwrap`/`expect` of the source;
      the contracts of `Normalize` show that none of them can fail. */
  function FromNfd(unicode: seq<nat>, n: Nfd.Nfd): (r: HangulLetter)
    requires ChoseongJamo.IsConjoiningChoseong(n.choseong)
    requires JungseongJamo.IsConjoiningJungseong(n.jungseong)
    requires n.jongseong.Some? ==> JongseongJamo.IsConjoiningJongseong(n.jongseong.value)
    ensures WellFormed(r) && r.unicode == unicode
    ensures r.choseong.conjoining == n.choseong && r.jungseong.conjoining == n.jungseong
    ensures r.jongseong.Some? <==> n.jongseong.Some?
    ensures r.jongseong.Some? ==> r.jongseong.value.conjoining == n.jongseong.value
  {
    HangulLetter(
      unicode,
      ChoseongJamo.New(n.choseong).Extract(),
      JungseongJamo.New(n.jungseong).Extract(),
      match n.jongseong
      case Some(j) => Some(JongseongJamo.New(j).Extract())
      case None => None)
  }

  /** `HangulLetter::parse`: one composed syllable, or 2-3 conjoining jamo; `None` otherwise. */
  function Parse(s: seq<nat>): (r: Option<HangulLetter>)
    ensures r.Some? <==> Nfc.IsNfcHangul(s) || Nfd.IsNfdHangul(s)
    ensures r.Some? ==> WellFormed(r.value) && r.value.unicode == s
    ensures Nfd.IsNfdHangul(s) ==> r.Some? && r.value.choseong.conjoining == s[0] && r.value.jungseong.conjoining == s[1]
    ensures Nfd.IsNfdHangul(s) ==> (r.value.jongseong.Some? <==> |s| == 3)
    ensures Nfd.IsNfdHangul(s) && |s| == 3 ==> r.value.jongseong.value.conjoining == s[2]
  {
    if Nfc.IsNfcHangul(s) then
      var ch := s[0];
      var unicode := [ch];
      Some(FromNfd(unicode, Nfd.Normalize(unicode[0]).Extract()))
    else if Nfd.IsNfdHangul(s) then
      var choseong := ChoseongJamo.New(s[0]).Extract();
      var jungseong := JungseongJamo.New(s[1]).Extract();
      var jongseong := if |s| == 3 then Some(JongseongJamo.New(s[2]).Extract()) else None;
      Some(HangulLetter(s, choseong, jungseong, jongseong))
    else None
  }

  /** `HangulLetter::parse_from_char`: a letter exactly when the character is a composed syllable. */
  function ParseFromChar(c: nat): (r: Option<HangulLetter>)
    ensures r.Some? <==> Utils.IsCompleteHangul(c)
    ensures r.Some? ==> WellFormed(r.value) && r.value.unicode == [c]
  {
    if Nfc.IsNfcHangulChar(c) then
      var unicode := c;
      Some(FromNfd([unicode], Nfd.Normalize(unicode).Extract()))
    else None
  }

  /** `parse_from_char` is `parse` of the one-character string, on every character. */
  lemma ParseFromCharIsParse(c: nat)
    ensures ParseFromChar(c) == Parse([c])
  {
  }

  /** The display letters of a trailing consonant: both halves of a compound final, else its own letter. */
  function JongseongLetters(jongseong: Option<JongseongJamo.Jongseong>): seq<nat>
  {
    match jongseong
    case None => []
    case Some(jong) =>
      if JongseongJamo.IsComplexJongseong(jong) then JongseongJamo.DecomposeComplexJongseong(jong)
      else [jong.compatibility]
  }

  /** The compatibility letters of a syllable, in order: choseong, jungseong, then the jongseong's. */
  function Disassembled(l: HangulLetter): seq<nat>
  {
    [l.choseong.compatibility, l.jungseong.compatibility] + JongseongLetters(l.jongseong)
  }

  /** `HangulLetter::disassemble`: pushes the letters onto a string one at a time. */
  method Disassemble(l: HangulLetter) returns (result: seq<nat>)
    ensures result == Disassembled(l)
  {
    result := [];
    result := result + [l.choseong.compatibility];
    result := result + [l.jungseong.compatibility];
    if l.jongseong.Some? {
      var jong := l.jongseong.value;
      if JongseongJamo.IsComplexJongseong(jong) {
        var letters := JongseongJamo.DecomposeComplexJongseong(jong);
        for k := 0 to |letters|
          invariant result == [l.choseong.compatibility, l.jungseong.compatibility] + letters[..k]
        {
          result := result + [letters[k]];
        }
      } else {
        result := result + [jong.compatibility];
      }
    }
  }

  /** `HangulLetter::has_batchim`. */
  predicate HasBatchim(l: HangulLetter) {
    l.jongseong.Some?
  }

  /** The shape of a disassembly: choseong letter, jungseong letter, then no jongseong letter
      without a batchim, two for a compound final and one otherwise; all compatibility jamo. */
  lemma DisassembledShape(l: HangulLetter)
    requires WellFormed(l)
    ensures var d := Disassembled(l);
      && 2 <= |d| <= 4
      && d[0] == l.choseong.compatibility && d[1] == l.jungseong.compatibility
      && (|d| == 2 <==> !HasBatchim(l))
      && (|d| == 4 <==> HasBatchim(l) && JongseongJamo.IsComplexJongseong(l.jongseong.value))
      && (HasBatchim(l) && !JongseongJamo.IsComplexJongseong(l.jongseong.value) ==> d[2..] == [l.jongseong.value.compatibility])
      && forall k :: 0 <= k < |d| ==> Utils.IsCompatibilityJamo(d[k])
  {
    var d := Disassembled(l);
    assert Utils.IsCompatibilityJamo(d[0]) && Utils.IsCompatibilityJamo(d[1]) by {
      ChoseongJamo.MappingInCompatibilityRange(l.choseong.conjoining - ChoseongJamo.ChoseongBase);
      JungseongJamo.MappingContiguous(l.jungseong.conjoining - JungseongJamo.JungseongBase);
    }
    match l.jongseong
    case None =>
      assert d == [d[0], d[1]] && |d| == 2;
    case Some(jong) =>
      if JongseongJamo.IsComplexJongseong(jong) {
        CompoundFinalShape(jong);
        assert d == [d[0], d[1]] + JongseongJamo.DecomposeComplexJongseong(jong);
        assert |d| == 4;
      } else {
        assert d == [d[0], d[1], jong.compatibility];
        assert |d| == 3 && d[2..] == [jong.compatibility];
        assert Utils.IsCompatibilityJamo(d[2]) by {
          JongseongJamo.MappingInCompatibilityRange(jong.conjoining - JongseongJamo.JongseongBase);
        }
      }
  }

  /** A compound final shows two letters, both compatibility jamo. */
  lemma CompoundFinalShape(jong: JongseongJamo.Jongseong)
    requires JongseongJamo.IsComplexJongseong(jong)
    ensures var parts := JongseongJamo.DecomposeComplexJongseong(jong);
      |parts| == 2 && Utils.IsCompatibilityJamo(parts[0]) && Utils.IsCompatibilityJamo(parts[1])
  {
    var parts := JongseongJamo.DecomposeComplexJongseong(jong);
    SimpleFinalIsJamo(parts[0]);
    SimpleFinalIsJamo(parts[1]);
  }

  lemma SimpleFinalIsJamo(u: nat)
    requires JongseongJamo.IsSimpleFinal(u)
    ensures Utils.IsCompatibilityJamo(u)
  {
    JongseongJamo.OutsideRangeNotInMapping(u);
  }

  /** The `is_complex_jongseong` test before splitting never changes the outcome:
      a simple final decomposes to its own letter anyway. */
  lemma JongseongLettersAreDecomposition(jong: JongseongJamo.Jongseong)
    ensures JongseongLetters(Some(jong)) == JongseongJamo.DecomposeComplexJongseong(jong)
  {
  }

  /** The NFD form of a syllable parses to the same jamo as its composed form. */
  lemma NfdParseMatchesNfc(n: Nfd.Nfd)
    requires ChoseongJamo.IsConjoiningChoseong(n.choseong)
    requires JungseongJamo.IsConjoiningJungseong(n.jungseong)
    requires n.jongseong.Some? ==> JongseongJamo.IsConjoiningJongseong(n.jongseong.value)
    ensures var syllable := Nfd.Recombined(n) as nat;
      var jamo := [n.choseong, n.jungseong] + (if n.jongseong.Some? then [n.jongseong.value] else []);
      && Parse([syllable]).Some? && Parse(jamo).Some?
      && Parse([syllable]).value.choseong == Parse(jamo).value.choseong
      && Parse([syllable]).value.jungseong == Parse(jamo).value.jungseong
      && Parse([syllable]).value.jongseong == Parse(jamo).value.jongseong
  {
    Nfd.RecombinedNormalizes(n);
    var syllable := Nfd.Recombined(n) as nat;
    var jamo := [n.choseong, n.jungseong] + (if n.jongseong.Some? then [n.jongseong.value] else []);
    assert Nfd.IsNfdHangul(jamo);
    var a, b := Parse([syllable]).value, Parse(jamo).value;
    ChoseongJamo.NewFromEitherHalf(a.choseong);
    JungseongJamo.NewFromEitherHalf(a.jungseong);
    if a.jongseong.Some? {
      JongseongJamo.NewFromEitherHalf(a.jongseong.value);
    }
  }

  /** "ᄒ ᅡ ᆫ" written as conjoining jamo parses like "한". */
  lemma HanInBothForms()
    ensures Parse([0x1112, 0x1161, 0x11AB]).Some? && Parse([0xD55C]).Some?
    ensures Parse([0x1112, 0x1161, 0x11AB]).value.choseong == Parse([0xD55C]).value.choseong
    ensures Parse([0x1112, 0x1161, 0x11AB]).value.jungseong == Parse([0xD55C]).value.jungseong
    ensures Parse([0x1112, 0x1161, 0x11AB]).value.jongseong == Parse([0xD55C]).value.jongseong
  {
    var n := Nfd.Nfd(0x1112, 0x1161, Some(0x11AB));
    assert Nfd.Recombined(n) == 0xD55C;
    NfdParseMatchesNfc(n);
  }

  /** Inputs the parser rejects: "", "a", "!", "ㄱ", "ㅏ", "가나", "ᄀᄀ", "ᅡᅡ", "ᄀᆫ". */
  lemma ParseRejections()
    ensures Parse([]).None? && Parse([0x61]).None? && Parse([0x21]).None?
    ensures Parse([0x3131]).None? && Parse([0x314F]).None? && Parse([0xAC00, 0xB098]).None?
    ensures Parse([0x1100, 0x1100]).None? && Parse([0x1161, 0x1161]).None? && Parse([0x1100, 0x11AB]).None?
  {
  }

  /** `parse_from_char` accepts '한' and rejects 'a', 'ㄱ' and '!'. */
  lemma ParseFromCharExamples()
    ensures ParseFromChar(0xD55C).Some? && ParseFromChar(0xD55C).value.unicode == [0xD55C]
    ensures ParseFromChar(0x61).None? && ParseFromChar(0x3131).None? && ParseFromChar(0x21).None?
  {
  }

  /** The letters of a decomposition's final read straight off the jongseong table:
      the table entry's decomposition, or nothing without a final. */
  function TableFinalLetters(jongseong: Option<nat>): seq<nat>
    requires jongseong.Some? ==> JongseongJamo.IsConjoiningJongseong(jongseong.value)
  {
    match jongseong
    case None => []
    case Some(j) => JongseongJamo.DecomposeComplexJongseong(
      JongseongJamo.Jongseong(j, JongseongJamo.CompatibilityJongseongMapping[j - JongseongJamo.JongseongBase]))
  }

  /** The letters of a decomposition read straight off the tables: the choseong table
      entry, the vowel shifted by 0x1FEE, then the final's table letters.
      An independent reference for `Disassembled`. */
  function TableLetters(n: Nfd.Nfd): seq<nat>
    requires ChoseongJamo.IsConjoiningChoseong(n.choseong)
    requires n.jongseong.Some? ==> JongseongJamo.IsConjoiningJongseong(n.jongseong.value)
  {
    [ChoseongJamo.CompatibilityChoseongMapping[n.choseong - ChoseongJamo.ChoseongBase], n.jungseong + 0x1FEE] +
    TableFinalLetters(n.jongseong)
  }

  /** The decomposition a well-formed syllable's jamo spell out. */
  function JamoOf(l: HangulLetter): (n: Nfd.Nfd)
    ensures n.choseong == l.choseong.conjoining && n.jungseong == l.jungseong.conjoining
    ensures n.jongseong.Some? <==> l.jongseong.Some?
    ensures l.jongseong.Some? ==> n.jongseong.value == l.jongseong.value.conjoining
  {
    Nfd.Nfd(l.choseong.conjoining, l.jungseong.conjoining,
      match l.jongseong
      case Some(j) => Some(j.conjoining)
      case None => None)
  }

  /** A valid final shows the table letters of its conjoining form. */
  lemma FinalByTable(jongseong: Option<JongseongJamo.Jongseong>)
    requires jongseong.Some? ==> JongseongJamo.Valid(jongseong.value)
    ensures JongseongLetters(jongseong) ==
      TableFinalLetters(if jongseong.Some? then Some(jongseong.value.conjoining) else None)
  {
    if jongseong.Some? {
      var j := jongseong.value;
      assert j == JongseongJamo.Jongseong(j.conjoining, JongseongJamo.CompatibilityJongseongMapping[j.conjoining - JongseongJamo.JongseongBase]);
      JongseongLettersAreDecomposition(j);
    }
  }

  /** A well-formed syllable's first two letters are the choseong table's entry and
      the vowel shifted by 0x1FEE. */
  lemma HeadByTables(l: HangulLetter)
    requires WellFormed(l)
    ensures [l.choseong.compatibility, l.jungseong.compatibility] ==
      [ChoseongJamo.CompatibilityChoseongMapping[l.choseong.conjoining - ChoseongJamo.ChoseongBase], l.jungseong.conjoining + 0x1FEE]
  {
    JungseongJamo.MappingContiguous(l.jungseong.conjoining - JungseongJamo.JungseongBase);
  }

  /** A well-formed syllable shows the table letters of its own jamo. */
  lemma WellFormedByTables(l: HangulLetter)
    requires WellFormed(l)
    ensures Disassembled(l) == TableLetters(JamoOf(l))
  {
    HeadByTables(l);
    FinalByTable(l.jongseong);
    assert JamoOf(l).jongseong == (if l.jongseong.Some? then Some(l.jongseong.value.conjoining) else None);
  }

  /** Any syllable built from a decomposition shows that decomposition's table letters. */
  lemma FromNfdByTables(unicode: seq<nat>, n: Nfd.Nfd)
    requires ChoseongJamo.IsConjoiningChoseong(n.choseong)
    requires JungseongJamo.IsConjoiningJungseong(n.jungseong)
    requires n.jongseong.Some? ==> JongseongJamo.IsConjoiningJongseong(n.jongseong.value)
    ensures Disassembled(FromNfd(unicode, n)) == TableLetters(n)
  {
    var l := FromNfd(unicode, n);
    WellFormedByTables(l);
    assert JamoOf(l) == n;
  }

  /** A syllable's leading consonant is the choseong table's letter at index (c - 0xAC00) / 588. */
  lemma ChoseongByTable(c: nat)
    requires Utils.IsCompleteHangul(c)
    ensures ParseFromChar(c).value.choseong.compatibility ==
      ChoseongJamo.CompatibilityChoseongMapping[(c - Nfd.HangulBase) / 588]
  {
    var n := Nfd.Normalize(c).value;
    assert n.choseong == ChoseongJamo.ChoseongBase + (c - Nfd.HangulBase) / 588;
    var l := ParseFromChar(c).value;
    assert l == FromNfd([c], n);
    assert l.choseong.conjoining == n.choseong;
  }

  /** A syllable's letters are the table letters at the indices `Normalize` computes. */
  lemma DisassembledByTables(c: nat)
    requires Utils.IsCompleteHangul(c)
    ensures Disassembled(ParseFromChar(c).value) == TableLetters(Nfd.Normalize(c).value)
  {
    FromNfdByTables([c], Nfd.Normalize(c).value);
  }

  /** "값" disassembles to "ㄱㅏㅂㅅ": its compound final ㅄ is split. */
  lemma DisassembleGap()
    ensures HasBatchim(ParseFromChar(0xAC12).value)
    ensures Disassembled(ParseFromChar(0xAC12).value) == [0x3131, 0x314F, 0x3142, 0x3145]
  {
    assert Nfd.Normalize(0xAC12) == Ok(Nfd.Nfd(0x1100, 0x1161, Some(0x11B9)));
    DisassembledByTables(0xAC12);
  }

  /** "의" disassembles to "ㅇㅢ". */
  lemma DisassembleUi()
    ensures Disassembled(ParseFromChar(0xC758).value) == [0x3147, 0x3162]
  {
    assert Nfd.Normalize(0xC758) == Ok(Nfd.Nfd(0x110B, 0x1174, None));
    DisassembledByTables(0xC758);
  }

  /** "한" disassembles to "ㅎㅏㄴ" and has a batchim. */
  lemma DisassembleHan()
    ensures HasBatchim(ParseFromChar(0xD55C).value)
    ensures Disassembled(ParseFromChar(0xD55C).value) == [0x314E, 0x314F, 0x3134]
  {
    assert Nfd.Normalize(0xD55C) == Ok(Nfd.Nfd(0x1112, 0x1161, Some(0x11AB)));
    DisassembledByTables(0xD55C);
  }

  /** "가" disassembles to "ㄱㅏ" and has no batchim. */
  lemma DisassembleGa()
    ensures !HasBatchim(ParseFromChar(0xAC00).value)
    ensures Disassembled(ParseFromChar(0xAC00).value) == [0x3131, 0x314F]
  {
    assert Nfd.Normalize(0xAC00) == Ok(Nfd.Nfd(0x1100, 0x1161, None));
    DisassembledByTables(0xAC00);
  }

  /** "뉘" has no batchim. */
  lemma NwiHasNoBatchim()
    ensures !HasBatchim(ParseFromChar(0xB258).value)
  {
    assert Nfd.Normalize(0xB258) == Ok(Nfd.Nfd(0x1102, 0x1171, None));
  }
}
