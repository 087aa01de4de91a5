/** The text facade over `HangulLetter`: splits a string into characters, parses each
    composed syllable, and passes every other character through unchanged. */
module Text {
  import opened Wrappers
  import Utils
  import Nfd
  import ChoseongJamo
  import JongseongJamo
  import Letter

  /** One input character, with its parse when it is a composed syllable. */
  datatype CharUnit = CharUnit(original: nat, hangul: Option<Letter.HangulLetter>)

  /** `Hangul`: the units in input order and the input itself. */
  datatype Hangul = Hangul(charUnits: seq<CharUnit>, original: seq<nat>)

  function Unit(c: nat): CharUnit
  {
    CharUnit(c, Letter.ParseFromChar(c))
  }

  /** `chars().map(..).collect()`: one unit per code point, in order. */
  function Units(s: seq<nat>): (units: seq<CharUnit>)
    ensures |units| == |s|
    ensures forall i :: 0 <= i < |s| ==> units[i] == Unit(s[i])
  {
    if s == [] then [] else [Unit(s[0])] + Units(s[1..])
  }

  /** The fields of `Hangul` are private, so every value is one that `New` built. */
  ghost predicate Wf(h: Hangul) {
    h.charUnits == Units(h.original)
  }

  /** `Hangul::new` is total: every string loads, each character recognised or not. */
  function New(s: seq<nat>): (h: Hangul)
    ensures Wf(h) && h.original == s && |h.charUnits| == |s|
    ensures forall i :: 0 <= i < |s| ==> h.charUnits[i].original == s[i]
    ensures forall i :: 0 <= i < |s| ==> (h.charUnits[i].hangul.Some? <==> Utils.IsCompleteHangul(s[i]))
  {
    Hangul(Units(s), s)
  }

  /** `Hangul::original`: the input, from which the whole value is rebuilt. */
  function Original(h: Hangul): (s: seq<nat>)
    requires Wf(h)
    ensures New(s) == h
  {
    h.original
  }

  /** `Hangul::len`: the number of units, which is the input's code-point count. */
  function Len(h: Hangul): (n: nat)
    requires Wf(h)
    ensures n == |h.original|
  {
    |h.charUnits|
  }

  /** `Hangul::is_empty`. */
  function IsEmpty(h: Hangul): (b: bool)
    requires Wf(h)
    ensures b <==> h.original == []
  {
    |h.charUnits| == 0
  }

  /** A unit's contribution to the disassembly. */
  function UnitDisassembly(unit: CharUnit): (r: seq<nat>)
    ensures unit.hangul.None? ==> r == [unit.original]
    ensures 1 <= |r| <= 4
  {
    match unit.hangul
    case Some(hangul) => Letter.Disassembled(hangul)
    case None => [unit.original]
  }

  /** The concatenation of the units' disassemblies, in order. */
  function DisassembleUnits(units: seq<CharUnit>): (r: seq<nat>)
    ensures |units| <= |r| <= 4 * |units|
  {
    if units == [] then [] else UnitDisassembly(units[0]) + DisassembleUnits(units[1..])
  }

  /** `Hangul::disassemble`: each syllable expands to 2 to 4 letters, anything else stays. */
  function Disassemble(h: Hangul): (r: seq<nat>)
    ensures |h.charUnits| <= |r| <= 4 * |h.charUnits|
  {
    DisassembleUnits(h.charUnits)
  }

  /** A unit's leading consonant, or the character itself. */
  function UnitChoseong(unit: CharUnit): nat
  {
    match unit.hangul
    case Some(hangul) => hangul.choseong.compatibility
    case None => unit.original
  }

  function GetChoseongUnits(units: seq<CharUnit>): (r: seq<nat>)
    ensures |r| == |units|
    ensures forall i :: 0 <= i < |units| ==> r[i] == UnitChoseong(units[i])
  {
    if units == [] then [] else [UnitChoseong(units[0])] + GetChoseongUnits(units[1..])
  }

  /** `Hangul::get_choseong`: length-preserving, one leading consonant per syllable. */
  function GetChoseong(h: Hangul): (r: seq<nat>)
    ensures |r| == |h.charUnits|
    ensures forall i :: 0 <= i < |r| ==> r[i] == UnitChoseong(h.charUnits[i])
  {
    GetChoseongUnits(h.charUnits)
  }

  /** Loading a string keeps it: the length is its code-point count, empty exactly when it is. */
  lemma NewKeepsInput(s: seq<nat>)
    ensures Original(New(s)) == s
    ensures Len(New(s)) == |s|
    ensures IsEmpty(New(s)) <==> |s| == 0
  {
  }

  lemma UnitsConcat(a: seq<nat>, b: seq<nat>)
    ensures Units(a + b) == Units(a) + Units(b)
  {
    assert |Units(a + b)| == |Units(a) + Units(b)|;
    forall i | 0 <= i < |a + b| ensures Units(a + b)[i] == (Units(a) + Units(b))[i] {
      if i < |a| { assert (a + b)[i] == a[i]; } else { assert (a + b)[i] == b[i - |a|]; }
    }
  }

  lemma {:induction false} DisassembleUnitsConcat(x: seq<CharUnit>, y: seq<CharUnit>)
    ensures DisassembleUnits(x + y) == DisassembleUnits(x) + DisassembleUnits(y)
  {
    if x == [] {
      assert x + y == y;
    } else {
      assert (x + y)[1..] == x[1..] + y;
      DisassembleUnitsConcat(x[1..], y);
    }
  }

  /** Disassembly distributes over concatenation of the input. */
  lemma DisassembleConcat(a: seq<nat>, b: seq<nat>)
    ensures Disassemble(New(a + b)) == Disassemble(New(a)) + Disassemble(New(b))
  {
    UnitsConcat(a, b);
    DisassembleUnitsConcat(Units(a), Units(b));
  }

  /** A one-character input disassembles to its syllable's letters, or to itself. */
  lemma DisassembleOne(c: nat)
    ensures Disassemble(New([c])) == if Utils.IsCompleteHangul(c) then Letter.Disassembled(Letter.ParseFromChar(c).value) else [c]
  {
    assert Units([c]) == [Unit(c)];
    assert DisassembleUnits([Unit(c)]) == UnitDisassembly(Unit(c)) + DisassembleUnits([]);
  }

  /** Text without composed syllables (a bare compatibility jamo included) comes back unchanged. */
  lemma {:induction false} PassThrough(s: seq<nat>)
    requires forall i :: 0 <= i < |s| ==> !Utils.IsCompleteHangul(s[i])
    ensures Disassemble(New(s)) == s
    ensures GetChoseong(New(s)) == s
  {
    if s != [] {
      assert s == [s[0]] + s[1..];
      DisassembleConcat([s[0]], s[1..]);
      DisassembleOne(s[0]);
      PassThrough(s[1..]);
    }
  }

  /** The leading consonant a character shows, read straight off the choseong table:
      the letter at index (c - 0xAC00) / 588 for a syllable, the character itself otherwise.
      An independent reference for `GetChoseong`. */
  function TableChoseong(c: nat): nat
  {
    if Utils.IsCompleteHangul(c)
    then ChoseongJamo.CompatibilityChoseongMapping[(c - Nfd.HangulBase) / 588]
    else c
  }

  /** One character's leading consonant is its table letter. */
  lemma UnitChoseongByTable(c: nat)
    ensures UnitChoseong(Unit(c)) == TableChoseong(c)
  {
    if Utils.IsCompleteHangul(c) {
      var l := Letter.ParseFromChar(c).value;
      assert UnitChoseong(Unit(c)) == l.choseong.compatibility;
      Letter.ChoseongByTable(c);
    } else {
      assert Unit(c).hangul.None?;
    }
  }

  /** Position i of the leading consonants is the leading consonant of character i. */
  lemma GetChoseongUnitAt(s: seq<nat>, i: nat)
    requires i < |s|
    ensures |GetChoseong(New(s))| == |s| && GetChoseong(New(s))[i] == UnitChoseong(Unit(s[i]))
  {
  }

  /** Position i of the leading consonants is, for a syllable, the table's letter for its
      choseong index (s[i] - 0xAC00) / 588, and otherwise s[i] itself. */
  lemma GetChoseongAt(s: seq<nat>, i: nat)
    requires i < |s|
    ensures |GetChoseong(New(s))| == |s|
    ensures GetChoseong(New(s))[i] == TableChoseong(s[i])
  {
    GetChoseongUnitAt(s, i);
    UnitChoseongByTable(s[i]);
  }

  /** Leading consonants distribute over concatenation, like disassembly. */
  lemma GetChoseongConcat(a: seq<nat>, b: seq<nat>)
    ensures GetChoseong(New(a + b)) == GetChoseong(New(a)) + GetChoseong(New(b))
  {
    UnitsConcat(a, b);
  }

  lemma EmptyInput()
    ensures Disassemble(New([])) == [] && GetChoseong(New([])) == []
  {
  }

  /** A one-syllable piece of text and its letters, given through the syllable's decomposition. */
  lemma DisassembleSyllable(c: nat, n: Nfd.Nfd)
    requires Utils.IsCompleteHangul(c) && Nfd.Normalize(c) == Ok(n)
    ensures Disassemble(New([c])) == Letter.TableLetters(n)
  {
    DisassembleOne(c);
    Letter.DisassembledByTables(c);
  }

  /** "안" disassembles to "ㅇㅏㄴ". */
  lemma DisassembleAn(c: nat)
    requires c == 0xC548
    ensures Disassemble(New([c])) == [0x3147, 0x314F, 0x3134]
  {
    assert Nfd.Normalize(c) == Ok(Nfd.Nfd(0x110B, 0x1161, Some(0x11AB)));
    assert ChoseongJamo.CompatibilityChoseongMapping[0x110B - ChoseongJamo.ChoseongBase] == 0x3147;
    assert JongseongJamo.CompatibilityJongseongMapping[0x11AB - JongseongJamo.JongseongBase] == 0x3134;
    assert JongseongJamo.DecomposeComplexJongseong(JongseongJamo.Jongseong(0x11AB, 0x3134)) == [0x3134];
    DisassembleSyllable(c, Nfd.Nfd(0x110B, 0x1161, Some(0x11AB)));
  }

  /** "녕" disassembles to "ㄴㅕㅇ". */
  lemma DisassembleNyeong(c: nat)
    requires c == 0xB155
    ensures Disassemble(New([c])) == [0x3134, 0x3155, 0x3147]
  {
    assert Nfd.Normalize(c) == Ok(Nfd.Nfd(0x1102, 0x1167, Some(0x11BC)));
    assert ChoseongJamo.CompatibilityChoseongMapping[0x1102 - ChoseongJamo.ChoseongBase] == 0x3134;
    assert JongseongJamo.CompatibilityJongseongMapping[0x11BC - JongseongJamo.JongseongBase] == 0x3147;
    assert JongseongJamo.DecomposeComplexJongseong(JongseongJamo.Jongseong(0x11BC, 0x3147)) == [0x3147];
    DisassembleSyllable(c, Nfd.Nfd(0x1102, 0x1167, Some(0x11BC)));
  }

  /** "안녕" disassembles to "ㅇㅏㄴㄴㅕㅇ". */
  lemma DisassembleAnnyeong(s: seq<nat>)
    requires s == [0xC548, 0xB155]
    ensures Disassemble(New(s)) == [0x3147, 0x314F, 0x3134, 0x3134, 0x3155, 0x3147]
  {
    DisassembleAn(s[0]);
    DisassembleNyeong(s[1]);
    assert s == [s[0]] + [s[1]];
    DisassembleConcat([s[0]], [s[1]]);
  }

  /** "안녕!" disassembles to "ㅇㅏㄴㄴㅕㅇ!": the exclamation mark passes through. */
  lemma DisassembleAnnyeongBang(s: seq<nat>)
    requires s == [0xC548, 0xB155]
    ensures Disassemble(New(s + [0x21])) == [0x3147, 0x314F, 0x3134, 0x3134, 0x3155, 0x3147, 0x21]
  {
    DisassembleAnnyeong(s);
    DisassembleConcat(s, [0x21]);
    DisassembleOne(0x21);
  }

  /** "안녕 Hello" disassembles to "ㅇㅏㄴㄴㅕㅇ Hello": the Latin tail passes through. */
  lemma DisassembleAnnyeongHello(s: seq<nat>, tail: seq<nat>)
    requires s == [0xC548, 0xB155] && tail == [0x20, 0x48, 0x65, 0x6C, 0x6C, 0x6F]
    ensures Disassemble(New(s + tail)) == [0x3147, 0x314F, 0x3134, 0x3134, 0x3155, 0x3147] + tail
  {
    DisassembleAnnyeong(s);
    PassThrough(tail);
    DisassembleConcat(s, tail);
  }

  /** "밝" disassembles to "ㅂㅏㄹㄱ": its final ㄺ is split into ㄹ and ㄱ. */
  lemma DisassembleBak(c: nat)
    requires c == 0xBC1D
    ensures Disassemble(New([c])) == [0x3142, 0x314F, 0x3139, 0x3131]
  {
    assert Nfd.Normalize(c) == Ok(Nfd.Nfd(0x1107, 0x1161, Some(0x11B0)));
    assert ChoseongJamo.CompatibilityChoseongMapping[0x1107 - ChoseongJamo.ChoseongBase] == 0x3142;
    assert JongseongJamo.CompatibilityJongseongMapping[0x11B0 - JongseongJamo.JongseongBase] == 0x313A;
    assert JongseongJamo.DecomposeComplexJongseong(JongseongJamo.Jongseong(0x11B0, 0x313A)) == [0x3139, 0x3131];
    DisassembleSyllable(c, Nfd.Nfd(0x1107, 0x1161, Some(0x11B0)));
  }

  /** "다" disassembles to "ㄷㅏ". */
  lemma DisassembleDa(c: nat)
    requires c == 0xB2E4
    ensures Disassemble(New([c])) == [0x3137, 0x314F]
  {
    assert Nfd.Normalize(c) == Ok(Nfd.Nfd(0x1103, 0x1161, None));
    assert ChoseongJamo.CompatibilityChoseongMapping[0x1103 - ChoseongJamo.ChoseongBase] == 0x3137;
    DisassembleSyllable(c, Nfd.Nfd(0x1103, 0x1161, None));
  }

  /** "밝다" disassembles to "ㅂㅏㄹㄱㄷㅏ". */
  lemma DisassembleBakda(s: seq<nat>)
    requires s == [0xBC1D, 0xB2E4]
    ensures Disassemble(New(s)) == [0x3142, 0x314F, 0x3139, 0x3131, 0x3137, 0x314F]
  {
    DisassembleBak(s[0]);
    DisassembleDa(s[1]);
    assert s == [s[0]] + [s[1]];
    DisassembleConcat([s[0]], [s[1]]);
  }

  /** The leading consonant of a single syllable c whose choseong index is k is the k-th
      compatibility letter; a single other character is its own. */
  lemma GetChoseongOne(c: nat, k: nat)
    requires Utils.IsCompleteHangul(c) ==> k == (c - Nfd.HangulBase) / 588
    ensures GetChoseong(New([c])) ==
      if Utils.IsCompleteHangul(c) then [ChoseongJamo.CompatibilityChoseongMapping[k]] else [c]
  {
    GetChoseongAt([c], 0);
    assert GetChoseong(New([c])) == [TableChoseong(c)];
  }

  /** A syllable whose choseong index is k shows the k-th table letter as its initial. */
  lemma GetChoseongSyllable(c: nat, k: nat, letter: nat)
    requires Utils.IsCompleteHangul(c) && k == (c - Nfd.HangulBase) / 588
    requires k < |ChoseongJamo.CompatibilityChoseongMapping| && ChoseongJamo.CompatibilityChoseongMapping[k] == letter
    ensures GetChoseong(New([c])) == [letter]
  {
    GetChoseongOne(c, k);
  }

  /** The leading consonants of "안녕" are "ㅇㄴ". */
  lemma GetChoseongAnnyeong(s: seq<nat>)
    requires s == [0xC548, 0xB155]
    ensures GetChoseong(New(s)) == [0x3147, 0x3134]
  {
    GetChoseongSyllable(s[0], 11, 0x3147);
    GetChoseongSyllable(s[1], 2, 0x3134);
    assert s == [s[0]] + [s[1]];
    GetChoseongConcat([s[0]], [s[1]]);
  }

  /** The leading consonants of "세요" are "ㅅㅇ". */
  lemma GetChoseongSeyo(s: seq<nat>)
    requires s == [0xC138, 0xC694]
    ensures GetChoseong(New(s)) == [0x3145, 0x3147]
  {
    GetChoseongSyllable(s[0], 9, 0x3145);
    GetChoseongSyllable(s[1], 11, 0x3147);
    assert s == [s[0]] + [s[1]];
    GetChoseongConcat([s[0]], [s[1]]);
  }

  /** The leading consonants of "하세요" are "ㅎㅅㅇ". */
  lemma GetChoseongHaseyo(s: seq<nat>)
    requires s == [0xD558, 0xC138, 0xC694]
    ensures GetChoseong(New(s)) == [0x314E, 0x3145, 0x3147]
  {
    GetChoseongSyllable(s[0], 18, 0x314E);
    GetChoseongSeyo(s[1..]);
    assert s == [s[0]] + s[1..];
    GetChoseongConcat([s[0]], s[1..]);
  }

  /** The leading consonants of "안녕하세요" are "ㅇㄴㅎㅅㅇ". */
  lemma GetChoseongAnnyeonghaseyo(s: seq<nat>)
    requires s == [0xC548, 0xB155, 0xD558, 0xC138, 0xC694]
    ensures GetChoseong(New(s)) == [0x3147, 0x3134, 0x314E, 0x3145, 0x3147]
  {
    GetChoseongAnnyeong(s[..2]);
    GetChoseongHaseyo(s[2..]);
    assert s == s[..2] + s[2..];
    GetChoseongConcat(s[..2], s[2..]);
  }

  /** The leading consonants of "Hello 안녕!" are "Hello ㅇㄴ!": other characters pass through. */
  lemma GetChoseongMixed(s: seq<nat>)
    requires s == [0x48, 0x65, 0x6C, 0x6C, 0x6F, 0x20, 0xC548, 0xB155, 0x21]
    ensures Len(New(s)) == 9
    ensures GetChoseong(New(s)) == [0x48, 0x65, 0x6C, 0x6C, 0x6F, 0x20, 0x3147, 0x3134, 0x21]
  {
    PassThrough(s[..6]);
    GetChoseongAnnyeong(s[6..8]);
    GetChoseongOne(s[8], 0);
    assert s == s[..6] + s[6..8] + [s[8]];
    GetChoseongConcat(s[..6], s[6..8]);
    GetChoseongConcat(s[..6] + s[6..8], [s[8]]);
  }
}
