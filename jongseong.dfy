/** Trailing consonants (jongseong): conversion between the conjoining block
    U+11A8..U+11C2 and the compatibility letters through a 27-entry table, and the
    split of the 11 compound finals into two letters. */
module JongseongJamo {
  import opened Wrappers
  import Tables
  import Utils

  const JongseongBase: nat := 0x11A8
  const JongseongLast: nat := 0x11C2
  const CompatJongseongBase: nat := 0x3131
  const CompatJongseongLast: nat := 0x314E

  /** Entry i is the compatibility letter of conjoining jongseong 0x11A8 + i. It skips
      0x3138, 0x3143 and 0x3149, which have no trailing form. */
  const CompatibilityJongseongMapping: seq<nat> := [
    0x3131, 0x3132, 0x3133, 0x3134, 0x3135, 0x3136, 0x3137, 0x3139, 0x313A, 0x313B, 0x313C, 0x313D,
    0x313E, 0x313F, 0x3140, 0x3141, 0x3142, 0x3144, 0x3145, 0x3146, 0x3147, 0x3148, 0x314A, 0x314B,
    0x314C, 0x314D, 0x314E
  ]

  /** The compatibility letters of the compound finals ㄳ ㄵ ㄶ ㄺ ㄻ ㄼ ㄽ ㄾ ㄿ ㅀ ㅄ. */
  const ComplexJongseongMapping: seq<nat> := [
    0x3133, 0x3135, 0x3136, 0x313A, 0x313B, 0x313C, 0x313D, 0x313E, 0x313F, 0x3140, 0x3144
  ]

  /** One trailing consonant in both of its encodings. */
  datatype Jongseong = Jongseong(conjoining: nat, compatibility: nat)

  predicate IsConjoiningJongseong(u: nat) {
    JongseongBase <= u && u <= JongseongLast
  }

  predicate IsCompatibilityJongseong(u: nat) {
    CompatJongseongBase <= u && u <= CompatJongseongLast
  }

  ghost predicate Valid(t: Jongseong) {
    && IsConjoiningJongseong(t.conjoining)
    && CompatibilityJongseongMapping[t.conjoining - JongseongBase] == t.compatibility
  }

  /** `Jongseong::new`: a conjoining jongseong is looked up by index; a code point of the
      compatibility range is searched for in the table; anything else (including an
      in-range letter the table lacks) is the panic, here `None`. */
  function New(u: nat): (r: Option<Jongseong>)
    ensures r.Some? <==> IsConjoiningJongseong(u) || u in CompatibilityJongseongMapping
    ensures r.Some? ==> Valid(r.value) && (r.value.conjoining == u || r.value.compatibility == u)
    ensures r.Some? ==> Utils.IsScalarValue(r.value.conjoining) && Utils.IsScalarValue(r.value.compatibility)
  {
    OutsideRangeNotInMapping(u);
    if JongseongBase <= u && u <= JongseongLast then
      var offset := u - JongseongBase;
      Some(Jongseong(u, CompatibilityJongseongMapping[offset]))
    else if CompatJongseongBase <= u && u <= CompatJongseongLast then
      FromCompatibility(u)
    else None
  }

  /** The compatibility branch of `Jongseong::new`: the letter's index in the table,
      offset from 0x11A8; `None` (the panic) for an in-range letter the table lacks. */
  function FromCompatibility(u: nat): (r: Option<Jongseong>)
    ensures r.Some? <==> u in CompatibilityJongseongMapping
    ensures r.Some? ==> Valid(r.value) && r.value.compatibility == u
  {
    match Tables.Position(CompatibilityJongseongMapping, u)
    case Some(position) => Some(Jongseong(JongseongBase + position, u))
    case None => None
  }

  /** A compound final: its compatibility letter is one of the 11 listed. */
  predicate IsComplexJongseong(t: Jongseong) {
    t.compatibility in ComplexJongseongMapping
  }

  /** The letters a trailing consonant is displayed as: two for a compound final,
      each a simple final of the table; otherwise its own compatibility letter. */
  function DecomposeComplexJongseong(t: Jongseong): (r: seq<nat>)
    ensures IsComplexJongseong(t) ==> |r| == 2
    ensures IsComplexJongseong(t) ==> forall k :: 0 <= k < 2 ==> IsSimpleFinal(r[k])
    ensures !IsComplexJongseong(t) ==> r == [t.compatibility]
  {
    match t.compatibility
    case 0x3133 => [0x3131, 0x3145]  // ㄳ: ㄱ ㅅ
    case 0x3135 => [0x3134, 0x3148]  // ㄵ: ㄴ ㅈ
    case 0x3136 => [0x3134, 0x314E]  // ㄶ: ㄴ ㅎ
    case 0x313A => [0x3139, 0x3131]  // ㄺ: ㄹ ㄱ
    case 0x313B => [0x3139, 0x3141]  // ㄻ: ㄹ ㅁ
    case 0x313C => [0x3139, 0x3142]  // ㄼ: ㄹ ㅂ
    case 0x313D => [0x3139, 0x3145]  // ㄽ: ㄹ ㅅ
    case 0x313E => [0x3139, 0x314C]  // ㄾ: ㄹ ㅌ
    case 0x313F => [0x3139, 0x314D]  // ㄿ: ㄹ ㅍ
    case 0x3140 => [0x3139, 0x314E]  // ㅀ: ㄹ ㅎ
    case 0x3144 => [0x3142, 0x3145]  // ㅄ: ㅂ ㅅ
    case _ => [t.compatibility]
  }

  /** A letter that is a trailing consonant of its own and not a compound one. */
  ghost predicate IsSimpleFinal(u: nat) {
    u in CompatibilityJongseongMapping && u !in ComplexJongseongMapping
  }

  lemma MappingIncreasing()
    ensures Tables.StrictlyIncreasing(CompatibilityJongseongMapping)
  {
  }

  /** Searching the table for its entry i finds index i. */
  lemma PositionOfMappingEntry(i: nat)
    requires i < |CompatibilityJongseongMapping|
    ensures Tables.Position(CompatibilityJongseongMapping, CompatibilityJongseongMapping[i]) == Some(i)
  {
    MappingIncreasing();
    Tables.PositionOfEntry(CompatibilityJongseongMapping, i);
  }

  /** Every table entry lies in the accepted compatibility range. */
  lemma MappingInCompatibilityRange(i: nat)
    requires i < |CompatibilityJongseongMapping|
    ensures IsCompatibilityJongseong(CompatibilityJongseongMapping[i])
  {
  }

  /** A code point outside the accepted compatibility range is not in the table. */
  lemma OutsideRangeNotInMapping(u: nat)
    ensures !IsCompatibilityJongseong(u) ==> u !in CompatibilityJongseongMapping
  {
    forall i | 0 <= i < |CompatibilityJongseongMapping|
      ensures IsCompatibilityJongseong(CompatibilityJongseongMapping[i])
    {
      MappingInCompatibilityRange(i);
    }
  }

  /** Every compound final is itself a table entry, so it names a buildable jongseong. */
  lemma ComplexKeysInMapping(k: nat)
    requires k < |ComplexJongseongMapping|
    ensures ComplexJongseongMapping[k] in CompatibilityJongseongMapping
    ensures New(ComplexJongseongMapping[k]).Some?
    ensures IsComplexJongseong(New(ComplexJongseongMapping[k]).value)
  {
    var i := [2, 4, 5, 8, 9, 10, 11, 12, 13, 14, 17][k];
    assert CompatibilityJongseongMapping[i] == ComplexJongseongMapping[k];
    NewFromEitherHalf(Jongseong(JongseongBase + i, ComplexJongseongMapping[k]));
  }

  /** Duality: a valid jongseong is rebuilt unchanged from either of its halves. */
  lemma NewFromEitherHalf(t: Jongseong)
    requires Valid(t)
    ensures New(t.conjoining) == Some(t)
    ensures New(t.compatibility) == Some(t)
  {
    var i := t.conjoining - JongseongBase;
    assert New(t.conjoining) == Some(t);
    assert New(t.compatibility) == Some(t) by {
      PositionOfMappingEntry(i);
      MappingInCompatibilityRange(i);
    }
  }

  /** For every conjoining x, building from the compatibility half of `New(x)` gives `New(x)` again. */
  lemma Duality(x: nat)
    requires IsConjoiningJongseong(x)
    ensures New(x).Some? && New(New(x).value.compatibility) == New(x)
  {
    NewFromEitherHalf(New(x).value);
  }

  /** Over the 27 table entries, exactly the compound finals split in two; the others stay one letter. */
  lemma DecomposeLengthOverTable(i: nat)
    requires i < |CompatibilityJongseongMapping|
    ensures New(CompatibilityJongseongMapping[i]).Some?
    ensures |DecomposeComplexJongseong(New(CompatibilityJongseongMapping[i]).value)|
         == if CompatibilityJongseongMapping[i] in ComplexJongseongMapping then 2 else 1
  {
    NewFromEitherHalf(Jongseong(JongseongBase + i, CompatibilityJongseongMapping[i]));
  }

  /** Construction on the values the source's tests use. */
  lemma NewExamples()
    ensures New(0x11A8) == Some(Jongseong(0x11A8, 0x3131)) && New(0x11AC) == Some(Jongseong(0x11AC, 0x3135))
    ensures New(0x3131) == Some(Jongseong(0x11A8, 0x3131)) && New(0x3135) == Some(Jongseong(0x11AC, 0x3135))
  {
    NewFromEitherHalf(Jongseong(0x11A8, 0x3131));
    NewFromEitherHalf(Jongseong(0x11AC, 0x3135));
  }

  /** Letters inside the accepted compatibility range but missing from the table fail,
      as does a code point of another block. */
  lemma NewFailures()
    ensures New(0x3138).None? && New(0x3143).None? && New(0x3149).None?
    ensures New(0x1100).None?
  {
    AbsentFromMapping(0x3138);
    AbsentFromMapping(0x3143);
    AbsentFromMapping(0x3149);
  }

  /** The three gaps of the table, found by comparing with each entry. */
  lemma AbsentFromMapping(u: nat)
    requires u == 0x3138 || u == 0x3143 || u == 0x3149
    ensures u !in CompatibilityJongseongMapping
  {
    forall i | 0 <= i < |CompatibilityJongseongMapping| ensures CompatibilityJongseongMapping[i] != u { }
  }

  /** One compound final and its expected letters: the split holds for that final alone. */
  lemma SplitOf(t: Jongseong, a: nat, b: nat)
    requires
         (t.compatibility == 0x3133 && a == 0x3131 && b == 0x3145)
      || (t.compatibility == 0x3135 && a == 0x3134 && b == 0x3148)
      || (t.compatibility == 0x3136 && a == 0x3134 && b == 0x314E)
      || (t.compatibility == 0x313A && a == 0x3139 && b == 0x3131)
      || (t.compatibility == 0x313B && a == 0x3139 && b == 0x3141)
      || (t.compatibility == 0x313C && a == 0x3139 && b == 0x3142)
      || (t.compatibility == 0x313D && a == 0x3139 && b == 0x3145)
      || (t.compatibility == 0x313E && a == 0x3139 && b == 0x314C)
      || (t.compatibility == 0x313F && a == 0x3139 && b == 0x314D)
      || (t.compatibility == 0x3140 && a == 0x3139 && b == 0x314E)
      || (t.compatibility == 0x3144 && a == 0x3142 && b == 0x3145)
    ensures IsComplexJongseong(t) && DecomposeComplexJongseong(t) == [a, b]
  {
  }

  /** Each of the eleven compound finals is compound and splits into the two letters the
      source's tests expect (that each is a table letter is `ComplexKeysInMapping`). */
  lemma SplitExamples()
    ensures IsComplexJongseong(Jongseong(0x11AA, 0x3133)) && DecomposeComplexJongseong(Jongseong(0x11AA, 0x3133)) == [0x3131, 0x3145]  // ㄳ: ㄱ ㅅ
    ensures IsComplexJongseong(Jongseong(0x11AC, 0x3135)) && DecomposeComplexJongseong(Jongseong(0x11AC, 0x3135)) == [0x3134, 0x3148]  // ㄵ: ㄴ ㅈ
    ensures IsComplexJongseong(Jongseong(0x11AD, 0x3136)) && DecomposeComplexJongseong(Jongseong(0x11AD, 0x3136)) == [0x3134, 0x314E]  // ㄶ: ㄴ ㅎ
    ensures IsComplexJongseong(Jongseong(0x11B0, 0x313A)) && DecomposeComplexJongseong(Jongseong(0x11B0, 0x313A)) == [0x3139, 0x3131]  // ㄺ: ㄹ ㄱ
    ensures IsComplexJongseong(Jongseong(0x11B1, 0x313B)) && DecomposeComplexJongseong(Jongseong(0x11B1, 0x313B)) == [0x3139, 0x3141]  // ㄻ: ㄹ ㅁ
    ensures IsComplexJongseong(Jongseong(0x11B2, 0x313C)) && DecomposeComplexJongseong(Jongseong(0x11B2, 0x313C)) == [0x3139, 0x3142]  // ㄼ: ㄹ ㅂ
    ensures IsComplexJongseong(Jongseong(0x11B3, 0x313D)) && DecomposeComplexJongseong(Jongseong(0x11B3, 0x313D)) == [0x3139, 0x3145]  // ㄽ: ㄹ ㅅ
    ensures IsComplexJongseong(Jongseong(0x11B4, 0x313E)) && DecomposeComplexJongseong(Jongseong(0x11B4, 0x313E)) == [0x3139, 0x314C]  // ㄾ: ㄹ ㅌ
    ensures IsComplexJongseong(Jongseong(0x11B5, 0x313F)) && DecomposeComplexJongseong(Jongseong(0x11B5, 0x313F)) == [0x3139, 0x314D]  // ㄿ: ㄹ ㅍ
    ensures IsComplexJongseong(Jongseong(0x11B6, 0x3140)) && DecomposeComplexJongseong(Jongseong(0x11B6, 0x3140)) == [0x3139, 0x314E]  // ㅀ: ㄹ ㅎ
    ensures IsComplexJongseong(Jongseong(0x11B9, 0x3144)) && DecomposeComplexJongseong(Jongseong(0x11B9, 0x3144)) == [0x3142, 0x3145]  // ㅄ: ㅂ ㅅ
  {
    SplitOf(Jongseong(0x11AA, 0x3133), 0x3131, 0x3145);
    SplitOf(Jongseong(0x11AC, 0x3135), 0x3134, 0x3148);
    SplitOf(Jongseong(0x11AD, 0x3136), 0x3134, 0x314E);
    SplitOf(Jongseong(0x11B0, 0x313A), 0x3139, 0x3131);
    SplitOf(Jongseong(0x11B1, 0x313B), 0x3139, 0x3141);
    SplitOf(Jongseong(0x11B2, 0x313C), 0x3139, 0x3142);
    SplitOf(Jongseong(0x11B3, 0x313D), 0x3139, 0x3145);
    SplitOf(Jongseong(0x11B4, 0x313E), 0x3139, 0x314C);
    SplitOf(Jongseong(0x11B5, 0x313F), 0x3139, 0x314D);
    SplitOf(Jongseong(0x11B6, 0x3140), 0x3139, 0x314E);
    SplitOf(Jongseong(0x11B9, 0x3144), 0x3142, 0x3145);
  }

  /** The simple finals ㄱ, ㄴ and ㄹ stay single letters. */
  lemma SimpleFinalExamples()
    ensures !IsComplexJongseong(Jongseong(0x11A8, 0x3131))
    ensures DecomposeComplexJongseong(Jongseong(0x11A8, 0x3131)) == [0x3131]
    ensures !IsComplexJongseong(Jongseong(0x11AB, 0x3134))
    ensures DecomposeComplexJongseong(Jongseong(0x11AB, 0x3134)) == [0x3134]
    ensures !IsComplexJongseong(Jongseong(0x11AF, 0x3139))
    ensures DecomposeComplexJongseong(Jongseong(0x11AF, 0x3139)) == [0x3139]
  {
  }
}
