/** The older one-character syllable type, `HangulChar`: built only from a composed
    syllable, and displayed without splitting a compound final. */
module SyllableChar {
  import opened Wrappers
  import Utils
  import Nfd
  import ChoseongJamo
  import JungseongJamo
  import JongseongJamo
  import Letter

  /** `unicode` is the character; in this model it is also its `value`. */
  datatype HangulChar = HangulChar(
    unicode: nat,
    choseong: ChoseongJamo.Choseong,
    jungseong: JungseongJamo.Jungseong,
    jongseong: Option<JongseongJamo.Jongseong>)

  /** `HangulChar::new`: a value exactly for a composed syllable. The `unwrap` of the
      decomposition and the constructors' `expect`s are the `Extract`s, which cannot fail. */
  function New(ch: nat): (r: Option<HangulChar>)
    ensures r.Some? <==> Utils.IsCompleteHangul(ch)
    ensures r.Some? ==> r.value.unicode == ch
    ensures r.Some? ==>
      var l := Letter.ParseFromChar(ch).value;
      && r.value.choseong == l.choseong
      && r.value.jungseong == l.jungseong
      && r.value.jongseong == l.jongseong
  {
    var unicode := ch;
    if !Utils.IsCompleteHangul(unicode) then None
    else
      var n := Nfd.Normalize(unicode).Extract();
      Some(HangulChar(
        unicode,
        ChoseongJamo.New(n.choseong).Extract(),
        JungseongJamo.New(n.jungseong).Extract(),
        match n.jongseong
        case Some(j) => Some(JongseongJamo.New(j).Extract())
        case None => None))
  }

  /** `HangulChar::disassemble`: the three compatibility letters, the last one only when
      there is a final, which is never split. */
  function Disassembled(h: HangulChar): seq<nat>
  {
    [h.choseong.compatibility, h.jungseong.compatibility] +
    match h.jongseong
    case Some(j) => [j.compatibility]
    case None => []
  }

  /** `HangulChar::has_batchim`. */
  predicate HasBatchim(h: HangulChar) {
    h.jongseong.Some?
  }

  /** `HangulChar::get_choseong`. */
  function GetChoseong(h: HangulChar): nat
  {
    h.choseong.compatibility
  }

  /** A syllable's display is two or three compatibility letters: the leading consonant,
      the vowel, and the final exactly when there is a batchim. */
  lemma DisassembledShape(ch: nat)
    requires Utils.IsCompleteHangul(ch)
    ensures var h := New(ch).value; var d := Disassembled(h);
      && (|d| == 2 || |d| == 3)
      && (|d| == 3 <==> HasBatchim(h))
      && d[0] == GetChoseong(h)
      && forall i :: 0 <= i < |d| ==> Utils.IsCompatibilityJamo(d[i])
  {
    var h := New(ch).value;
    Letter.DisassembledShape(Letter.ParseFromChar(ch).value);
    if h.jongseong.Some? {
      JongseongJamo.MappingInCompatibilityRange(h.jongseong.value.conjoining - JongseongJamo.JongseongBase);
    }
  }

  /** The two syllable types agree on batchim and leading consonant, and display the same
      letters exactly when the final is not a compound one. */
  lemma AgreesWithLetter(ch: nat)
    requires Utils.IsCompleteHangul(ch)
    ensures var h := New(ch).value; var l := Letter.ParseFromChar(ch).value;
      && (HasBatchim(h) <==> Letter.HasBatchim(l))
      && GetChoseong(h) == l.choseong.compatibility
      && (Disassembled(h) == Letter.Disassembled(l) <==>
            !(h.jongseong.Some? && JongseongJamo.IsComplexJongseong(h.jongseong.value)))
  {
    var h := New(ch).value;
    var l := Letter.ParseFromChar(ch).value;
    Letter.DisassembledShape(l);
    if h.jongseong.Some? && JongseongJamo.IsComplexJongseong(h.jongseong.value) {
      assert |Disassembled(h)| == 3;
    }
  }

  /** The display read straight off the tables from the syllable's decomposition: the
      choseong table's letter, the vowel shifted by 0x1FEE, and the final's own table
      letter, a compound one kept whole. */
  lemma DisassembledByTables(ch: nat)
    requires Utils.IsCompleteHangul(ch)
    ensures
      var n := Nfd.Normalize(ch).value;
      Disassembled(New(ch).value) ==
        [ChoseongJamo.CompatibilityChoseongMapping[n.choseong - ChoseongJamo.ChoseongBase], n.jungseong + 0x1FEE] +
        (if n.jongseong.Some?
         then [JongseongJamo.CompatibilityJongseongMapping[n.jongseong.value - JongseongJamo.JongseongBase]]
         else [])
  {
    Letter.DisassembledByTables(ch);
    Letter.DisassembledShape(Letter.ParseFromChar(ch).value);
  }

  /** The leading consonant is the choseong table's letter at index (ch - 0xAC00) / 588. */
  lemma GetChoseongByTable(ch: nat)
    requires Utils.IsCompleteHangul(ch)
    ensures GetChoseong(New(ch).value) ==
      ChoseongJamo.CompatibilityChoseongMapping[(ch - Nfd.HangulBase) / 588]
  {
    Letter.ChoseongByTable(ch);
  }

  /** 'a' and the bare letter 'ㄱ' are not syllables. */
  lemma NewRejects()
    ensures New('a' as nat).None?
    ensures New(0x3131).None?  // ㄱ
  {
  }

  /** "한" is ㅎ ㅏ ㄴ with conjoining forms U+1112, U+1161, U+11AB, and has a batchim. */
  lemma HanExample(ch: nat)
    requires ch == 0xD55C
    ensures var h := New(ch).value;
      && h.choseong == ChoseongJamo.Choseong(0x1112, 0x314E)
      && h.jungseong == JungseongJamo.Jungseong(0x1161, 0x314F)
      && h.jongseong == Some(JongseongJamo.Jongseong(0x11AB, 0x3134))
      && Disassembled(h) == [0x314E, 0x314F, 0x3134]
      && HasBatchim(h)
      && GetChoseong(h) == 0x314E
  {
    assert Nfd.Normalize(ch) == Ok(Nfd.Nfd(0x1112, 0x1161, Some(0x11AB)));
    assert ChoseongJamo.CompatibilityChoseongMapping[0x1112 - ChoseongJamo.ChoseongBase] == 0x314E;
    assert JongseongJamo.CompatibilityJongseongMapping[0x11AB - JongseongJamo.JongseongBase] == 0x3134;
  }

  /** "가" is ㄱ ㅏ, "하" is ㅎ ㅏ, and neither has a batchim. */
  lemma OpenSyllableExamples(ga: nat, ha: nat)
    requires ga == 0xAC00 && ha == 0xD558
    ensures Disassembled(New(ga).value) == [0x3131, 0x314F] && GetChoseong(New(ga).value) == 0x3131
    ensures !HasBatchim(New(ga).value) && !HasBatchim(New(ha).value)
    ensures Disassembled(New(ha).value) == [0x314E, 0x314F]
  {
    assert Nfd.Normalize(ga) == Ok(Nfd.Nfd(0x1100, 0x1161, None));
    assert Nfd.Normalize(ha) == Ok(Nfd.Nfd(0x1112, 0x1161, None));
    assert ChoseongJamo.CompatibilityChoseongMapping[0x1112 - ChoseongJamo.ChoseongBase] == 0x314E;
  }

  /** "값" keeps its compound final: ㄱ ㅏ ㅄ here, against ㄱ ㅏ ㅂ ㅅ for `HangulLetter`. */
  lemma GapKeepsCompoundFinal(ch: nat)
    requires ch == 0xAC12
    ensures Disassembled(New(ch).value) == [0x3131, 0x314F, 0x3144]
    ensures Letter.Disassembled(Letter.ParseFromChar(ch).value) == [0x3131, 0x314F, 0x3142, 0x3145]
  {
    assert Nfd.Normalize(ch) == Ok(Nfd.Nfd(0x1100, 0x1161, Some(0x11B9)));
    assert JongseongJamo.CompatibilityJongseongMapping[0x11B9 - JongseongJamo.JongseongBase] == 0x3144;
    Letter.DisassembleGap();
  }
}
