/** The older text type, `HangulSentence`: the same per-character split as `Hangul`,
    over `HangulChar` units, so compound finals stay whole in its disassembly. */
module Sentence {
  import opened Wrappers
  import Utils
  import JongseongJamo
  import Letter
  import SyllableChar
  import Text

  /** One input character, with its `HangulChar` when it is a composed syllable. */
  datatype CharUnit = CharUnit(original: nat, hangul: Option<SyllableChar.HangulChar>)

  datatype HangulSentence = HangulSentence(charUnits: seq<CharUnit>, original: seq<nat>)

  function Unit(c: nat): CharUnit
  {
    CharUnit(c, SyllableChar.New(c))
  }

  /** `chars().map(..).collect()`: one unit per code point, in order. */
  function Units(s: seq<nat>): (units: seq<CharUnit>)
    ensures |units| == |s|
    ensures forall i :: 0 <= i < |s| ==> units[i] == Unit(s[i])
  {
    if s == [] then [] else [Unit(s[0])] + Units(s[1..])
  }

  /** The fields are private, so every value is one that `New` built. */
  ghost predicate Wf(h: HangulSentence) {
    h.charUnits == Units(h.original)
  }

  /** `HangulSentence::new` is total: each character is recognised as a syllable or kept as is. */
  function New(text: seq<nat>): (h: HangulSentence)
    ensures Wf(h) && h.original == text && |h.charUnits| == |text|
    ensures forall i :: 0 <= i < |text| ==> h.charUnits[i].original == text[i]
    ensures forall i :: 0 <= i < |text| ==> (h.charUnits[i].hangul.Some? <==> Utils.IsCompleteHangul(text[i]))
  {
    HangulSentence(Units(text), text)
  }

  /** `HangulSentence::original`: the input, from which the whole value is rebuilt. */
  function Original(h: HangulSentence): (s: seq<nat>)
    requires Wf(h)
    ensures New(s) == h
  {
    h.original
  }

  /** `HangulSentence::len`: the number of units, which is the input's code-point count. */
  function Len(h: HangulSentence): (n: nat)
    requires Wf(h)
    ensures n == |h.original|
  {
    |h.charUnits|
  }

  /** `HangulSentence::is_empty`. */
  function IsEmpty(h: HangulSentence): (b: bool)
    requires Wf(h)
    ensures b <==> h.original == []
  {
    |h.charUnits| == 0
  }

  /** A unit's contribution to the disassembly: a syllable's two or three letters, or itself. */
  function UnitDisassembly(unit: CharUnit): (r: seq<nat>)
    ensures unit.hangul.None? ==> r == [unit.original]
    ensures 1 <= |r| <= 3
  {
    match unit.hangul
    case Some(hangul) => SyllableChar.Disassembled(hangul)
    case None => [unit.original]
  }

  function DisassembleUnits(units: seq<CharUnit>): (r: seq<nat>)
    ensures |units| <= |r| <= 3 * |units|
  {
    if units == [] then [] else UnitDisassembly(units[0]) + DisassembleUnits(units[1..])
  }

  /** `HangulSentence::disassemble`: at most three letters per character. */
  function Disassemble(h: HangulSentence): (r: seq<nat>)
    ensures |h.charUnits| <= |r| <= 3 * |h.charUnits|
  {
    DisassembleUnits(h.charUnits)
  }

  function UnitChoseong(unit: CharUnit): nat
  {
    match unit.hangul
    case Some(hangul) => SyllableChar.GetChoseong(hangul)
    case None => unit.original
  }

  function GetChoseongUnits(units: seq<CharUnit>): (r: seq<nat>)
    ensures |r| == |units|
    ensures forall i :: 0 <= i < |units| ==> r[i] == UnitChoseong(units[i])
  {
    if units == [] then [] else [UnitChoseong(units[0])] + GetChoseongUnits(units[1..])
  }

  /** `HangulSentence::get_choseong`: length-preserving, one leading consonant per syllable. */
  function GetChoseong(h: HangulSentence): (r: seq<nat>)
    ensures |r| == |h.charUnits|
    ensures forall i :: 0 <= i < |r| ==> r[i] == UnitChoseong(h.charUnits[i])
  {
    GetChoseongUnits(h.charUnits)
  }

  /** Loading a string keeps it: the length is its code-point count, empty exactly when it is. */
  lemma NewKeepsInput(s: seq<nat>)
    ensures Original(New(s)) == s
    ensures Len(New(s)) == |s|
    ensures IsEmpty(New(s)) <==> |s| == 0
  {
  }

  lemma UnitsConcat(a: seq<nat>, b: seq<nat>)
    ensures Units(a + b) == Units(a) + Units(b)
  {
    assert |Units(a + b)| == |Units(a) + Units(b)|;
    forall i | 0 <= i < |a + b| ensures Units(a + b)[i] == (Units(a) + Units(b))[i] {
      if i < |a| { assert (a + b)[i] == a[i]; } else { assert (a + b)[i] == b[i - |a|]; }
    }
  }

  lemma {:induction false} DisassembleUnitsConcat(x: seq<CharUnit>, y: seq<CharUnit>)
    ensures DisassembleUnits(x + y) == DisassembleUnits(x) + DisassembleUnits(y)
  {
    if x == [] {
      assert x + y == y;
    } else {
      assert (x + y)[1..] == x[1..] + y;
      DisassembleUnitsConcat(x[1..], y);
    }
  }

  /** Disassembly distributes over concatenation of the input. */
  lemma DisassembleConcat(a: seq<nat>, b: seq<nat>)
    ensures Disassemble(New(a + b)) == Disassemble(New(a)) + Disassemble(New(b))
  {
    UnitsConcat(a, b);
    DisassembleUnitsConcat(Units(a), Units(b));
  }

  /** A one-character input disassembles to its syllable's letters, or to itself. */
  lemma DisassembleOne(c: nat)
    ensures Disassemble(New([c])) ==
      if Utils.IsCompleteHangul(c) then SyllableChar.Disassembled(SyllableChar.New(c).value) else [c]
  {
    assert Units([c]) == [Unit(c)];
    assert DisassembleUnits([Unit(c)]) == UnitDisassembly(Unit(c)) + DisassembleUnits([]);
  }

  /** Both text types give the same leading consonants for every input. */
  lemma GetChoseongAgreesWithText(s: seq<nat>)
    ensures GetChoseong(New(s)) == Text.GetChoseong(Text.New(s))
  {
    var r := GetChoseong(New(s));
    var t := Text.GetChoseong(Text.New(s));
    forall i | 0 <= i < |s| ensures r[i] == t[i] {
      if Utils.IsCompleteHangul(s[i]) {
        SyllableChar.AgreesWithLetter(s[i]);
      }
    }
  }

  /** A syllable whose final, if any, is a single consonant. */
  ghost predicate NoCompoundFinal(c: nat) {
    Utils.IsCompleteHangul(c) ==>
      var h := SyllableChar.New(c).value;
      !(h.jongseong.Some? && JongseongJamo.IsComplexJongseong(h.jongseong.value))
  }

  /** Both text types disassemble a text the same way when none of its syllables has a
      compound final. */
  lemma {:induction false} DisassembleAgreesWithText(s: seq<nat>)
    requires forall i :: 0 <= i < |s| ==> NoCompoundFinal(s[i])
    ensures Disassemble(New(s)) == Text.Disassemble(Text.New(s))
  {
    if s != [] {
      assert s == [s[0]] + s[1..];
      DisassembleConcat([s[0]], s[1..]);
      Text.DisassembleConcat([s[0]], s[1..]);
      DisassembleOne(s[0]);
      Text.DisassembleOne(s[0]);
      if Utils.IsCompleteHangul(s[0]) {
        SyllableChar.AgreesWithLetter(s[0]);
      }
      DisassembleAgreesWithText(s[1..]);
    }
  }

  /** One syllable with a compound final makes the two disassemblies differ. */
  lemma CompoundFinalDiffers(c: nat)
    requires !NoCompoundFinal(c)
    ensures Disassemble(New([c])) != Text.Disassemble(Text.New([c]))
  {
    DisassembleOne(c);
    Text.DisassembleOne(c);
    SyllableChar.AgreesWithLetter(c);
  }

  /** A character never displays longer here than in `Hangul`, and strictly shorter when it
      is a syllable with a compound final. */
  lemma UnitNoLongerThanText(c: nat)
    ensures |Disassemble(New([c]))| <= |Text.Disassemble(Text.New([c]))|
    ensures !NoCompoundFinal(c) ==> |Disassemble(New([c]))| < |Text.Disassemble(Text.New([c]))|
  {
    DisassembleOne(c);
    Text.DisassembleOne(c);
    if Utils.IsCompleteHangul(c) {
      SyllableChar.DisassembledShape(c);
      SyllableChar.AgreesWithLetter(c);
      Letter.DisassembledShape(Letter.ParseFromChar(c).value);
    }
  }

  /** Over a whole text, the disassembly is never longer than that of `Hangul`, and is
      strictly shorter as soon as one syllable has a compound final. */
  lemma {:induction false} NoLongerThanText(s: seq<nat>)
    ensures |Disassemble(New(s))| <= |Text.Disassemble(Text.New(s))|
    ensures (exists i :: 0 <= i < |s| && !NoCompoundFinal(s[i])) ==>
      |Disassemble(New(s))| < |Text.Disassemble(Text.New(s))|
  {
    if s != [] {
      assert s == [s[0]] + s[1..];
      DisassembleConcat([s[0]], s[1..]);
      Text.DisassembleConcat([s[0]], s[1..]);
      UnitNoLongerThanText(s[0]);
      NoLongerThanText(s[1..]);
      if exists i :: 0 <= i < |s| && !NoCompoundFinal(s[i]) {
        var i :| 0 <= i < |s| && !NoCompoundFinal(s[i]);
        if i > 0 {
          assert s[1..][i - 1] == s[i];
        }
      }
    }
  }

  /** The converse of `DisassembleAgreesWithText`: one syllable with a compound final anywhere
      in the text makes the two disassemblies differ. */
  lemma CompoundFinalAnywhereDiffers(s: seq<nat>, i: nat)
    requires i < |s| && !NoCompoundFinal(s[i])
    ensures Disassemble(New(s)) != Text.Disassemble(Text.New(s))
  {
    NoLongerThanText(s);
  }

  /** The two disassemblies of a text are equal exactly when none of its syllables has a
      compound final. */
  lemma DisassembleAgreesIff(s: seq<nat>)
    ensures Disassemble(New(s)) == Text.Disassemble(Text.New(s)) <==>
      forall i :: 0 <= i < |s| ==> NoCompoundFinal(s[i])
  {
    if forall i :: 0 <= i < |s| ==> NoCompoundFinal(s[i]) {
      DisassembleAgreesWithText(s);
    } else {
      NoLongerThanText(s);
    }
  }

  /** "안녕하세요" has five units and keeps its text; the empty text is empty. */
  lemma LengthExamples(s: seq<nat>)
    requires s == [0xC548, 0xB155, 0xD558, 0xC138, 0xC694]
    ensures Len(New(s)) == 5 && Original(New(s)) == s
    ensures IsEmpty(New([])) && Len(New([])) == 0
  {
  }

  /** "안녕" disassembles to "ㅇㅏㄴㄴㅕㅇ", as for `Hangul`. */
  lemma DisassembleAnnyeong(s: seq<nat>)
    requires s == [0xC548, 0xB155]
    ensures Disassemble(New(s)) == [0x3147, 0x314F, 0x3134, 0x3134, 0x3155, 0x3147]
  {
    forall i | 0 <= i < |s| ensures NoCompoundFinal(s[i]) {
      if i == 0 {
        SyllableChar.AgreesWithLetter(s[0]);
        Text.DisassembleAn(s[0]);
        Text.DisassembleOne(s[0]);
      } else {
        SyllableChar.AgreesWithLetter(s[1]);
        Text.DisassembleNyeong(s[1]);
        Text.DisassembleOne(s[1]);
      }
    }
    DisassembleAgreesWithText(s);
    Text.DisassembleAnnyeong(s);
  }

  /** "안녕하세요" gives "ㅇㄴㅎㅅㅇ", and "Hello 안녕!" gives "Hello ㅇㄴ!" over nine units. */
  lemma GetChoseongExamples(s: seq<nat>, mixed: seq<nat>)
    requires s == [0xC548, 0xB155, 0xD558, 0xC138, 0xC694]
    requires mixed == [0x48, 0x65, 0x6C, 0x6C, 0x6F, 0x20, 0xC548, 0xB155, 0x21]
    ensures GetChoseong(New(s)) == [0x3147, 0x3134, 0x314E, 0x3145, 0x3147]
    ensures Len(New(mixed)) == 9
    ensures GetChoseong(New(mixed)) == [0x48, 0x65, 0x6C, 0x6C, 0x6F, 0x20, 0x3147, 0x3134, 0x21]
  {
    GetChoseongAgreesWithText(s);
    Text.GetChoseongAnnyeonghaseyo(s);
    GetChoseongAgreesWithText(mixed);
    Text.GetChoseongMixed(mixed);
  }
}
