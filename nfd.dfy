/** Splitting a composed Hangul syllable into its conjoining jamo (the arithmetic of
    section 3.12 of the Unicode Standard, "Conjoining Jamo Behavior"), and recognising
    a syllable already written as conjoining jamo. */
module Nfd {
  import opened Wrappers
  import Utils
  import ChoseongJamo
  import JungseongJamo
  import JongseongJamo

  const HangulBase: nat := 0xAC00
  const ChoseongCount: nat := 0x13
  const JungseongCount: nat := 0x15
  const JongseongCount: nat := 0x1C
  const ChoseongBase: nat := 0x1100
  const JungseongBase: nat := 0x1161
  const JongseongBase: nat := 0x11A8
  const JungseongAndJongseongNumberOfCases: nat := JungseongCount * JongseongCount

  /** A decomposed syllable: choseong, jungseong and the optional jongseong, as conjoining code points. */
  datatype Nfd = Nfd(choseong: nat, jungseong: nat, jongseong: Option<nat>)

  datatype NormalizeError = InvalidHangul

  /** `NFD::normalize`: fails on anything outside the syllable block. */
  function Normalize(letterUnicode: nat): (r: Result<Nfd, NormalizeError>)
    ensures r.Err? <==> !Utils.IsCompleteHangul(letterUnicode)
    ensures r.Ok? ==> ChoseongJamo.IsConjoiningChoseong(r.value.choseong)
    ensures r.Ok? ==> JungseongJamo.IsConjoiningJungseong(r.value.jungseong)
    ensures r.Ok? ==> (r.value.jongseong.None? <==> (letterUnicode - HangulBase) % JongseongCount == 0)
    ensures r.Ok? && r.value.jongseong.Some? ==> JongseongJamo.IsConjoiningJongseong(r.value.jongseong.value)
  {
    if !Utils.IsCompleteHangul(letterUnicode) then Err(InvalidHangul)
    else
      var hangulCode := letterUnicode - HangulBase;
      var choseongIndex := hangulCode / JungseongAndJongseongNumberOfCases;
      var jungseongIndex := (hangulCode % JungseongAndJongseongNumberOfCases) / JongseongCount;
      var jongseongIndex := hangulCode % JongseongCount;
      var choseong := ChoseongBase + choseongIndex;
      var jungseong := JungseongBase + jungseongIndex;
      var jongseong := if jongseongIndex > 0 then Some(JongseongBase + jongseongIndex - 1) else None;
      Ok(Nfd(choseong, jungseong, jongseong))
  }

  /** 2 or 3 conjoining jamo, in the order choseong, jungseong, then an optional jongseong. */
  predicate IsNfdHangul(s: seq<nat>) {
    && (|s| == 2 || |s| == 3)
    && ChoseongJamo.IsConjoiningChoseong(s[0])
    && JungseongJamo.IsConjoiningJungseong(s[1])
    && (|s| == 3 ==> JongseongJamo.IsConjoiningJongseong(s[2]))
  }

  /** The trailing-consonant slot of a decomposition: 0 for none, 1..27 otherwise. */
  ghost function JongseongSlot(jongseong: Option<nat>): nat
  {
    match jongseong
    case None => 0
    case Some(j) => if j >= JongseongBase then j - JongseongBase + 1 else 0
  }

  /** The syllable whose decomposition is the given conjoining jamo: the inverse arithmetic,
      used only to state the lemmas below (the codec itself has no composing operation). */
  ghost function Recombined(n: Nfd): int
  {
    HangulBase + (n.choseong - ChoseongBase) * 588 + (n.jungseong - JungseongBase) * 28 + JongseongSlot(n.jongseong)
  }

  /** Quotient and remainder are determined by any decomposition with a remainder in range. */
  lemma DivModUnique(n: int, d: int, q: int, r: int)
    requires d > 0 && 0 <= r < d && n == q * d + r
    ensures n / d == q && n % d == r
  {
    var k := q - n / d;
    assert k * d == n % d - r;
    if k >= 1 {
      MulAtLeast(k, d);
    } else if k <= -1 {
      MulAtLeast(-k, d);
    }
  }

  lemma {:induction false} MulAtLeast(k: int, d: int)
    requires k >= 1 && d > 0
    ensures k * d >= d
  {
    if k > 1 {
      MulAtLeast(k - 1, d);
      assert k * d == (k - 1) * d + d;
    }
  }

  /** Recombination: the jamo `Normalize` returns give back the syllable it was given. */
  lemma NormalizeRecombines(u: nat)
    requires Utils.IsCompleteHangul(u)
    ensures Normalize(u).Ok? && Recombined(Normalize(u).value) == u
  {
    var offset := u - HangulBase;
    var q, m := offset / 588, offset % 588;
    var b, t := m / 28, m % 28;
    assert offset == q * 588 + b * 28 + t;
    DivModUnique(offset, 28, q * 21 + b, t);
  }

  /** `Normalize` is injective on the syllable block. */
  lemma NormalizeInjective(u: nat, v: nat)
    requires Utils.IsCompleteHangul(u) && Utils.IsCompleteHangul(v)
    requires Normalize(u) == Normalize(v)
    ensures u == v
  {
    NormalizeRecombines(u);
    NormalizeRecombines(v);
  }

  /** The converse round trip: a choseong, jungseong and optional jongseong in their conjoining
      ranges recombine into a syllable that `Normalize` splits back into exactly them. */
  lemma RecombinedNormalizes(n: Nfd)
    requires ChoseongJamo.IsConjoiningChoseong(n.choseong)
    requires JungseongJamo.IsConjoiningJungseong(n.jungseong)
    requires n.jongseong.Some? ==> JongseongJamo.IsConjoiningJongseong(n.jongseong.value)
    ensures Utils.IsCompleteHangul(Recombined(n) as nat)
    ensures Normalize(Recombined(n) as nat) == Ok(n)
  {
    var a, b, t := n.choseong - ChoseongBase, n.jungseong - JungseongBase, JongseongSlot(n.jongseong);
    var offset := a * 588 + b * 28 + t;
    assert 0 <= offset <= 18 * 588 + 20 * 28 + 27;
    DivModUnique(offset, 588, a, b * 28 + t);
    DivModUnique(b * 28 + t, 28, b, t);
    DivModUnique(offset, 28, a * 21 + b, t);
  }

  /** Test vectors: 가, 한, 릴 and 달 decompose as the source's test cases list. */
  lemma NormalizeExamples()
    ensures Normalize(0xAC00) == Ok(Nfd(0x1100, 0x1161, None))
    ensures Normalize(0xD55C) == Ok(Nfd(0x1112, 0x1161, Some(0x11AB)))
    ensures Normalize(0xB9B4) == Ok(Nfd(4357, 4469, Some(4527)))
    ensures Normalize(0xB2EC) == Ok(Nfd(0x1103, 0x1161, Some(0x11AF)))
  {
  }

  /** Test vectors: 노, 맨 and 붓 decompose as the source's test cases list. */
  lemma NormalizeMoreExamples()
    ensures Normalize(0xB178) == Ok(Nfd(0x1102, 0x1169, None))
    ensures Normalize(0xB9E8) == Ok(Nfd(0x1106, 0x1162, Some(0x11AB)))
    ensures Normalize(0xBD93) == Ok(Nfd(0x1107, 0x116E, Some(0x11BA)))
  {
  }

  /** Non-syllables fail: 'a', '1', 'ㄱ', 'ㅏ' and U+3200. */
  lemma NormalizeFailures()
    ensures Normalize(0x61).Err? && Normalize(0x31).Err?
    ensures Normalize(0x3131).Err? && Normalize(0x314F).Err? && Normalize(0x3200).Err?
  {
  }

  /** The rejections the letter parser's tests rely on: "ᄀᄀ", "ᅡᅡ" and "ᄀᆫ" are not NFD syllables. */
  lemma NfdHangulExamples()
    ensures IsNfdHangul([0x1100, 0x1161]) && IsNfdHangul([0x1112, 0x1161, 0x11AB])
    ensures !IsNfdHangul([0x1100, 0x1100]) && !IsNfdHangul([0x1161, 0x1161]) && !IsNfdHangul([0x1100, 0x11AB])
    ensures !IsNfdHangul([]) && !IsNfdHangul([0xAC00])
  {
  }
}
