# rusty_hangul core, modelled in Dafny

This project models the core of `rusty_hangul`, a Rust library for Hangul text. The model covers:

- recognising composed syllables (U+AC00..U+D7A3) and compatibility jamo (U+3131..U+318E);
- decomposing a syllable into its conjoining jamo (NFD) by the Unicode arithmetic 19 × 21 × 28;
- the three jamo types `Choseong`, `Jungseong` and `Jongseong`, each a pair of a conjoining and a compatibility code point converted through the library's tables;
- `HangulLetter`, one syllable parsed from its composed (NFC) or decomposed (NFD) form, whose disassembly splits a compound final such as ㅄ into ㅂ ㅅ;
- `Hangul`, a text split into per-character units, with `disassemble` and `get_choseong`;
- the older pair `HangulChar` / `HangulSentence`, which disassemble without splitting compound finals.

Code points are `nat` and strings are `seq<nat>`. Each Rust `char` "value" field is represented by its code point. Every `panic!`, `unwrap` and `expect` of the source becomes an `Option` or `Result` with an error case. Where a caller unwraps, the model calls `.Extract()`, so the verifier proves that the unwrap cannot fail on that path.

Modules, one per source file:

| file | module | source |
|---|---|---|
| wrappers.dfy | `Wrappers` | `Option` / `Result` |
| tables.dfy | `Tables` | slice `get`, `iter().position`, `Option::map` as used by the jamo modules |
| utils.dfy | `Utils` | core/src/utils.rs |
| nfc.dfy | `Nfc` | core/src/nfc.rs |
| nfd.dfy | `Nfd` | core/src/nfd.rs |
| choseong.dfy | `ChoseongJamo` | core/src/choseong.rs |
| jungseong.dfy | `JungseongJamo` | core/src/jungseong.rs |
| jongseong.dfy | `JongseongJamo` | core/src/jongseong.rs |
| letter.dfy | `Letter` | core/src/hangul_letter.rs |
| text.dfy | `Text` | core/src/hangul.rs |
| syllable_char.dfy | `SyllableChar` | core/src/hangul_char.rs |
| sentence.dfy | `Sentence` | core/src/hangul_sentence.rs |

`Letter.Disassemble` is a method, because the source builds its string by pushing letters in a loop. Its loop is proved against the specification function `Letter.Disassembled`. Everything else in the source is expression code and is modelled as functions.

`Text` and `Sentence` have the same shape, because core/src/hangul.rs and core/src/hangul_sentence.rs repeat the same code over different syllable types. `Sentence.GetChoseongAgreesWithText` proves that the two text types always give the same initials. `Sentence.DisassembleAgreesIff` proves that their disassemblies are equal exactly when no character is a syllable with a compound final. `Sentence.NoLongerThanText` proves that the older type's disassembly is never longer, and is strictly shorter when such a syllable occurs.

## Model

| member | source | states |
|---|---|---|
| Utils.CompleteHangulBoundaries | core/src/utils.rs:2-6 | 가 (U+AC00) and 힣 (U+D7A3) are complete syllables; U+ABFF, U+D7A4 and 'a' are not |
| Utils.CompatibilityJamoExamples | core/src/utils.rs:9-13 | ㄱ and ㅏ are compatibility jamo, 가 is not |
| Utils.BlocksDisjoint | core/src/utils.rs:2-13 | no code point is both a complete syllable and a compatibility jamo |
| Nfc.SameSyllableBlock | core/src/nfc.rs:18-20 | the NFC module's own syllable range test agrees with the shared one |
| Nfc.NfcHangulCharacterised | core/src/nfc.rs:7-16 | a string is NFC Hangul iff it has exactly one code point and that code point is a complete syllable |
| Nfc.NfcHangulExamples | core/src/nfc.rs:28-40 | "가", "힣" and "한" are accepted; "ㄱㅏ", "ㄱ", "가나", "a" and "" are rejected |
| Tables.Get | core/src/choseong.rs:73-74 | a lookup succeeds iff the index is in bounds, and then yields that entry |
| Tables.Position | core/src/choseong.rs:82-84 | the search fails iff the value is absent; otherwise it returns the first index holding the value |
| Tables.Offset | core/src/choseong.rs:85 | mapping over the search result adds the base to a found index and keeps a failure |
| Tables.PositionOfEntry | core/src/choseong.rs:82-84 | in a strictly increasing table, searching for entry i finds i |
| ChoseongJamo.ConjoiningChoseongToCompatibility | core/src/choseong.rs:68-75 | succeeds iff the input is a conjoining choseong (U+1100..U+1112), and the pair it forms is the table's pair |
| ChoseongJamo.CompatibilityToConjoiningChoseong | core/src/choseong.rs:77-86 | succeeds iff the input is one of the 19 table letters, and the pair it forms is the table's pair |
| ChoseongJamo.New | core/src/choseong.rs:24-56 | construction succeeds iff the input is a conjoining choseong or a table letter; the result is a table pair containing the input, made of scalar values; otherwise the source panics |
| ChoseongJamo.MappingIncreasing | core/src/choseong.rs:10-13 | the compatibility table is strictly increasing, so its entries are distinct |
| ChoseongJamo.MappingInCompatibilityRange | core/src/choseong.rs:10-13 | every table letter is in the compatibility choseong range U+3131..U+314E |
| ChoseongJamo.PositionOfMappingEntry | core/src/choseong.rs:82-85 | searching the table for its entry i finds index i, so that letter converts back to U+1100 + i |
| ChoseongJamo.NewFromEitherHalf | core/src/choseong.rs:42-56 | a valid pair is rebuilt exactly from either of its halves |
| ChoseongJamo.Duality | core/src/choseong.rs:42-56 | converting a conjoining choseong to its letter and back gives the same pair |
| ChoseongJamo.NewFromCompatibility | core/src/choseong.rs:77-86 | table letter i is paired with U+1100 + i |
| ChoseongJamo.NewExamples | core/src/choseong.rs:185-213 | U+1100 and ㄱ give (U+1100, ㄱ); U+1112 and ㅎ give (U+1112, ㅎ) |
| ChoseongJamo.NewFailures | core/src/choseong.rs:215-219 | 가 is rejected, and so is ㄳ, which is in the range but not in the table |
| ChoseongJamo.ConversionBoundaries | core/src/choseong.rs:144-182 | both conversions reject the code points just outside their ranges |
| JungseongJamo.MappingContiguous | core/src/jungseong.rs:12-15 | vowel table entry i is U+314F + i |
| JungseongJamo.CompatibilityToConjoiningJungseong | core/src/jungseong.rs:72-81 | succeeds iff the input is a compatibility vowel (U+314F..U+3163), and the result is the input minus 0x1FEE |
| JungseongJamo.PositionInMapping | core/src/jungseong.rs:77-80 | the table search for a compatibility vowel u finds index u − U+314F |
| JungseongJamo.ConjoiningJungseongToCompatibility | core/src/jungseong.rs:83-92 | succeeds iff the input is a conjoining vowel (U+1161..U+1175), and the result is the input plus 0x1FEE |
| JungseongJamo.New | core/src/jungseong.rs:26-60 | construction succeeds iff the input is in either vowel range; the halves differ by 0x1FEE, one is the input, and both are scalar values |
| JungseongJamo.JamoGuardRedundant | core/src/jungseong.rs:73 | the compatibility-jamo half of the guard is implied by the vowel range |
| JungseongJamo.NewFromEitherHalf | core/src/jungseong.rs:44-60 | a valid pair is rebuilt exactly from either half |
| JungseongJamo.Duality | core/src/jungseong.rs:44-60 | converting a conjoining vowel to its letter and back gives the same pair |
| JungseongJamo.Examples | core/src/jungseong.rs:125-225 | ㅏ ↔ U+1161 and ㅣ ↔ U+1175 convert; U+1160, U+1176, U+3164 and the wrong-range inputs are rejected; ㄱ is not a vowel |
| JongseongJamo.New | core/src/jongseong.rs:31-63 | construction succeeds iff the input is a conjoining final (U+11A8..U+11C2) or one of the 27 table letters; the result is a table pair containing the input, made of scalar values; otherwise the source panics |
| JongseongJamo.FromCompatibility | core/src/jongseong.rs:45-58 | the letter branch of construction succeeds iff the letter is in the table, and then gives a valid pair holding that letter |
| JongseongJamo.DecomposeComplexJongseong | core/src/jongseong.rs:81-96 | a compound final splits into two letters, each a simple final; any other final gives its own letter |
| JongseongJamo.MappingIncreasing | core/src/jongseong.rs:10-14 | the final-consonant table is strictly increasing |
| JongseongJamo.MappingInCompatibilityRange | core/src/jongseong.rs:10-14 | every table letter lies in U+3131..U+314E |
| JongseongJamo.PositionOfMappingEntry | core/src/jongseong.rs:46-51 | searching the table for its entry i finds index i, so that letter converts back to U+11A8 + i |
| JongseongJamo.OutsideRangeNotInMapping | core/src/jongseong.rs:46-50 | no code point outside the compatibility range is in the table, so the range guard loses nothing |
| JongseongJamo.ComplexKeysInMapping | core/src/jongseong.rs:17-19 | each of the 11 compound finals is a table letter, and the final built from it is compound |
| JongseongJamo.NewFromEitherHalf | core/src/jongseong.rs:31-63 | a valid pair is rebuilt exactly from either half |
| JongseongJamo.Duality | core/src/jongseong.rs:31-63 | converting a conjoining final to its letter and back gives the same pair |
| JongseongJamo.DecomposeLengthOverTable | core/src/jongseong.rs:76-96 | over the whole table, a final decomposes to two letters iff it is compound, and to one otherwise |
| JongseongJamo.NewExamples | core/src/jongseong.rs:125-153 | U+11A8 ↔ ㄱ and U+11AC ↔ ㄵ, built from either half |
| JongseongJamo.NewFailures | core/src/jongseong.rs:235-240 | U+1100 is rejected, and so are ㄸ, ㅃ and ㅉ, which are in the range but never finals |
| JongseongJamo.SplitExamples | core/src/jongseong.rs:175-219 | each of the eleven compound finals ㄳ ㄵ ㄶ ㄺ ㄻ ㄼ ㄽ ㄾ ㄿ ㅀ ㅄ is compound and splits into the two letters the source's tests expect |
| JongseongJamo.SimpleFinalExamples | core/src/jongseong.rs:155-233 | ㄱ, ㄴ and ㄹ are not compound and decompose to themselves |
| Nfd.Normalize | core/src/nfd.rs:34-54 | fails iff the input is not a complete syllable; otherwise the choseong, the jungseong and any jongseong lie in their conjoining ranges, and the jongseong is absent iff (u − U+AC00) mod 28 = 0 |
| Nfd.NormalizeRecombines | core/src/nfd.rs:39-53 | recombining a syllable's decomposition by the inverse arithmetic gives the syllable back |
| Nfd.NormalizeInjective | core/src/nfd.rs:39-53 | distinct syllables have distinct decompositions |
| Nfd.RecombinedNormalizes | core/src/nfd.rs:39-53 | every triple of in-range jamo is the decomposition of exactly the syllable they recombine to, so normalisation is onto |
| Nfd.NormalizeExamples | core/src/nfd.rs:61-113 | 가, 한, 릴 (4357, 4469, 4527) and 달 decompose to the triples listed in the source's test cases |
| Nfd.NormalizeMoreExamples | core/src/nfd.rs:89-113 | 노, 맨 and 붓 decompose to the triples listed in the source's test cases |
| Nfd.NormalizeFailures | core/src/nfd.rs:74-87 | 'a', '1', ㄱ, ㅏ and U+3200 are rejected |
| Nfd.NfdHangulExamples | core/src/hangul_letter.rs:31-39 | "가" and "한" are NFD syllables; doubled initials, doubled vowels, an initial followed by a final, "" and 가 are not |
| Letter.FromNfd | core/src/hangul_letter.rs:20-28 | the letter built from in-range jamo is well formed, keeps the given code points, and carries exactly those jamo |
| Letter.Parse | core/src/hangul_letter.rs:16-51 | succeeds iff the input is one composed syllable or 2-3 conjoining jamo in order; the letter is well formed and keeps the input; NFD input gives exactly its own jamo, with a final iff there are three |
| Letter.ParseFromChar | core/src/hangul_letter.rs:53-67 | succeeds iff the character is a complete syllable, and then holds well-formed jamo and the character as its code points |
| Letter.ParseFromCharIsParse | core/src/hangul_letter.rs:16-67 | on every character, parse_from_char gives exactly what parse gives for the one-character string |
| Letter.Disassemble | core/src/hangul_letter.rs:69-86 | the pushed letters are the initial, the vowel and the final's letters, a compound final split in two |
| Letter.DisassembledShape | core/src/hangul_letter.rs:69-90 | a disassembly has 2 to 4 letters, all compatibility jamo, starting with the initial and the vowel; 2 iff no batchim, 4 iff a compound final |
| Letter.CompoundFinalShape | core/src/hangul_letter.rs:75-79 | a compound final pushes exactly two letters, both compatibility jamo |
| Letter.SimpleFinalIsJamo | core/src/jongseong.rs:83-94 | every letter a compound final splits into is a compatibility jamo |
| Letter.JongseongLettersAreDecomposition | core/src/hangul_letter.rs:75-83 | the branch on compound finals gives the same letters as decomposing unconditionally |
| Letter.NfdParseMatchesNfc | core/src/hangul_letter.rs:16-48 | a syllable and its conjoining jamo parse to the same three jamo |
| Letter.HanInBothForms | core/src/hangul_letter.rs:105-148 | "한" and "한" parse to the same jamo |
| Letter.ParseRejections | core/src/hangul_letter.rs:186-197 | "", "a", "!", ㄱ, ㅏ, "가나", "ᄀᄀ", "ᅡᅡ" and "ᄀᆫ" are rejected |
| Letter.ParseFromCharExamples | core/src/hangul_letter.rs:151-160 | 한 is accepted and keeps its code point; 'a', ㄱ and '!' are rejected |
| Letter.FinalByTable | core/src/hangul_letter.rs:75-83 | a valid final pushes the decomposition of the jongseong table's letter for its conjoining form, and no final pushes nothing |
| Letter.HeadByTables | core/src/hangul_letter.rs:72-73 | a well-formed syllable pushes first the choseong table's letter for its initial, then its vowel + 0x1FEE |
| Letter.WellFormedByTables | core/src/hangul_letter.rs:69-86 | a well-formed syllable's disassembly equals the table reference computed from its own conjoining jamo |
| Letter.FromNfdByTables | core/src/hangul_letter.rs:20-28 | the syllable built from any in-range decomposition disassembles to that decomposition's table reference |
| Letter.ChoseongByTable | core/src/hangul_letter.rs:53-67 | a syllable's initial is the choseong table's letter at (c − U+AC00) / 588 |
| Letter.DisassembledByTables | core/src/hangul_letter.rs:53-86 | a syllable's disassembly is the table reference of its decomposition: the choseong table's letter, the vowel + 0x1FEE, and the decomposition of the final's table letter |
| Letter.DisassembleGap | core/src/hangul_letter.rs:173-180 | 값 has a batchim and disassembles to ㄱㅏㅂㅅ |
| Letter.DisassembleUi | core/src/hangul_letter.rs:170-171 | 의 disassembles to ㅇㅢ |
| Letter.DisassembleHan | core/src/hangul_letter.rs:167-179 | 한 has a batchim and disassembles to ㅎㅏㄴ |
| Letter.DisassembleGa | core/src/hangul_letter.rs:164-182 | 가 has no batchim and disassembles to ㄱㅏ |
| Letter.NwiHasNoBatchim | core/src/hangul_letter.rs:183 | 뉘 has no batchim |
| Text.Units | core/src/hangul.rs:16-22 | one unit per code point, in order |
| Text.New | core/src/hangul.rs:15-28 | every string loads; unit i holds character i, and it holds a letter iff that character is a complete syllable |
| Text.Original | core/src/hangul.rs:30-32 | the stored input rebuilds the whole value |
| Text.Len | core/src/hangul.rs:34-36 | the length is the input's code-point count |
| Text.IsEmpty | core/src/hangul.rs:38-40 | empty iff the input is empty |
| Text.UnitDisassembly | core/src/hangul.rs:46-49 | a unit contributes 1 to 4 letters, and a non-syllable contributes itself |
| Text.DisassembleUnits | core/src/hangul.rs:42-51 | the disassembly has between 1 and 4 letters per unit |
| Text.Disassemble | core/src/hangul.rs:42-51 | the disassembly has between 1 and 4 letters per unit |
| Text.GetChoseongUnits | core/src/hangul.rs:53-62 | one output per unit, and output i is unit i's initial or its character |
| Text.GetChoseong | core/src/hangul.rs:53-62 | length-preserving; position i is unit i's initial or its character |
| Text.NewKeepsInput | core/src/hangul.rs:24-40 | `original` returns the input, `len` is its length, and it is empty iff the input is |
| Text.UnitsConcat | core/src/hangul.rs:16-22 | the units of a concatenation are the concatenated units |
| Text.DisassembleUnitsConcat | core/src/hangul.rs:42-51 | disassembly distributes over concatenated units |
| Text.DisassembleConcat | core/src/hangul.rs:42-51 | disassembling a concatenation concatenates the disassemblies, so order is kept |
| Text.DisassembleOne | core/src/hangul.rs:46-49 | one character disassembles to its letter's disassembly, or to itself |
| Text.PassThrough | core/src/hangul.rs:48-59 | text with no composed syllable (bare jamo included) is unchanged by both operations |
| Text.GetChoseongAt | core/src/hangul.rs:53-62 | position i of the initials is the choseong table's letter at (s[i] − U+AC00) / 588 for a syllable, and s[i] otherwise |
| Text.GetChoseongConcat | core/src/hangul.rs:53-62 | the initials of a concatenation are the concatenated initials |
| Text.UnitChoseongByTable | core/src/hangul.rs:53-62 | one character's output is the choseong table's letter at (c − U+AC00) / 588 for a syllable, and the character itself otherwise |
| Text.GetChoseongUnitAt | core/src/hangul.rs:53-62 | the initials keep the length, and position i is character i's own output |
| Text.EmptyInput | core/src/hangul.rs:79-82 | the empty text disassembles to "" and has no initials |
| Text.DisassembleSyllable | core/src/hangul.rs:42-51 | a one-syllable text disassembles to the table reference of the syllable's decomposition |
| Text.DisassembleAn | core/src/hangul.rs:110-112 | "안" disassembles to ㅇㅏㄴ |
| Text.DisassembleNyeong | core/src/hangul.rs:110-112 | "녕" disassembles to ㄴㅕㅇ |
| Text.DisassembleAnnyeong | core/src/hangul.rs:110-118 | "안녕" gives ㅇㅏㄴㄴㅕㅇ |
| Text.DisassembleAnnyeongBang | core/src/hangul.rs:110-118 | "안녕!" gives ㅇㅏㄴㄴㅕㅇ! |
| Text.DisassembleAnnyeongHello | core/src/hangul.rs:114-115 | "안녕 Hello" gives "ㅇㅏㄴㄴㅕㅇ Hello" |
| Text.DisassembleBak | core/src/hangul.rs:42-51 | "밝" disassembles to ㅂㅏㄹㄱ, splitting ㄺ |
| Text.DisassembleDa | core/src/hangul.rs:42-51 | "다" disassembles to ㄷㅏ |
| Text.DisassembleBakda | core/src/hangul.rs:42-51 | "밝다" disassembles to ㅂㅏㄹㄱㄷㅏ |
| Text.GetChoseongOne | core/src/hangul.rs:53-62 | the initial of a one-syllable text is the table letter at its choseong index, and a one-character non-syllable text gives the character |
| Text.GetChoseongSyllable | core/src/hangul.rs:53-62 | a one-syllable text whose choseong index is k gives the k-th table letter |
| Text.GetChoseongAnnyeong | core/src/hangul.rs:53-62 | "안녕" has initials ㅇㄴ |
| Text.GetChoseongSeyo | core/src/hangul.rs:53-62 | "세요" has initials ㅅㅇ |
| Text.GetChoseongHaseyo | core/src/hangul.rs:53-62 | "하세요" has initials ㅎㅅㅇ |
| Text.GetChoseongAnnyeonghaseyo | core/src/hangul.rs:121-124 | "안녕하세요" has initials ㅇㄴㅎㅅㅇ |
| Text.GetChoseongMixed | core/src/hangul.rs:75-127 | "Hello 안녕!" has 9 units and initials "Hello ㅇㄴ!" |
| SyllableChar.New | core/src/hangul_char.rs:17-33 | a value exists iff the character is a complete syllable; it keeps the character and carries the same jamo as `HangulLetter::parse_from_char` |
| SyllableChar.DisassembledShape | core/src/hangul_char.rs:35-53 | the display has 2 or 3 compatibility jamo starting with the initial; 3 iff there is a batchim |
| SyllableChar.AgreesWithLetter | core/src/hangul_char.rs:35-53 | batchim and initial agree with `HangulLetter`, and the displays are equal iff the final is not compound |
| SyllableChar.DisassembledByTables | core/src/hangul_char.rs:35-45 | a syllable displays as the choseong table's letter for its decomposition's initial, the vowel + 0x1FEE, and, when there is a final, the final's own table letter, a compound one kept whole |
| SyllableChar.GetChoseongByTable | core/src/hangul_char.rs:51-53 | the initial is the choseong table's letter at (ch − U+AC00) / 588 |
| SyllableChar.NewRejects | core/src/hangul_char.rs:90-94 | 'a' and ㄱ give no value |
| SyllableChar.HanExample | core/src/hangul_char.rs:60-108 | 한 has the jamo (U+1112, ㅎ), (U+1161, ㅏ) and (U+11AB, ㄴ), displays as ㅎㅏㄴ, has a batchim, and has initial ㅎ |
| SyllableChar.OpenSyllableExamples | core/src/hangul_char.rs:81-111 | 가 displays as ㄱㅏ with initial ㄱ, 하 as ㅎㅏ, and neither has a batchim |
| SyllableChar.GapKeepsCompoundFinal | core/src/hangul_char.rs:35-45 | 값 displays as ㄱㅏㅄ here, but as ㄱㅏㅂㅅ for `HangulLetter` |
| Sentence.Units | core/src/hangul_sentence.rs:16-23 | one unit per code point, in order |
| Sentence.New | core/src/hangul_sentence.rs:16-29 | every string loads; unit i holds character i, and holds a syllable iff that character is one |
| Sentence.Original | core/src/hangul_sentence.rs:31-33 | the stored input rebuilds the whole value |
| Sentence.Len | core/src/hangul_sentence.rs:35-37 | the length is the input's code-point count |
| Sentence.IsEmpty | core/src/hangul_sentence.rs:39-41 | empty iff the input is empty |
| Sentence.UnitDisassembly | core/src/hangul_sentence.rs:47-50 | a unit contributes 1 to 3 letters, and a non-syllable contributes itself |
| Sentence.DisassembleUnits | core/src/hangul_sentence.rs:43-52 | between 1 and 3 letters per unit |
| Sentence.Disassemble | core/src/hangul_sentence.rs:43-52 | between 1 and 3 letters per unit |
| Sentence.GetChoseongUnits | core/src/hangul_sentence.rs:54-63 | one output per unit: the initial or the character |
| Sentence.GetChoseong | core/src/hangul_sentence.rs:54-63 | length-preserving; position i is unit i's initial or its character |
| Sentence.NewKeepsInput | core/src/hangul_sentence.rs:25-41 | `original` returns the input, `len` is its length, and it is empty iff the input is |
| Sentence.UnitsConcat | core/src/hangul_sentence.rs:16-23 | the units of a concatenation are the concatenated units |
| Sentence.DisassembleUnitsConcat | core/src/hangul_sentence.rs:43-52 | disassembly distributes over concatenated units |
| Sentence.DisassembleConcat | core/src/hangul_sentence.rs:43-52 | disassembling a concatenation concatenates the disassemblies |
| Sentence.DisassembleOne | core/src/hangul_sentence.rs:47-50 | one character disassembles to its syllable's display, or to itself |
| Sentence.GetChoseongAgreesWithText | core/src/hangul_sentence.rs:54-63 | for every input, the initials are the same as those of `Hangul` |
| Sentence.DisassembleAgreesWithText | core/src/hangul_sentence.rs:43-52 | when no syllable has a compound final, the disassembly is the same as that of `Hangul` |
| Sentence.CompoundFinalDiffers | core/src/hangul_sentence.rs:43-52 | a single syllable with a compound final disassembles differently from `Hangul` |
| Sentence.UnitNoLongerThanText | core/src/hangul_sentence.rs:47-50 | one character's disassembly is never longer than under `Hangul`, and is strictly shorter for a syllable with a compound final |
| Sentence.NoLongerThanText | core/src/hangul_sentence.rs:43-52 | a whole disassembly is never longer than under `Hangul`, and is strictly shorter when some character is a syllable with a compound final |
| Sentence.CompoundFinalAnywhereDiffers | core/src/hangul_sentence.rs:43-52 | one syllable with a compound final anywhere in the input makes the two disassemblies differ |
| Sentence.DisassembleAgreesIff | core/src/hangul_sentence.rs:43-52 | the two disassemblies are equal iff no character is a syllable with a compound final |
| Sentence.LengthExamples | core/src/hangul_sentence.rs:71-98 | "안녕하세요" has 5 units and keeps its text; "" is empty with length 0 |
| Sentence.DisassembleAnnyeong | core/src/hangul_sentence.rs:88-91 | "안녕" gives ㅇㅏㄴㄴㅕㅇ |
| Sentence.GetChoseongExamples | core/src/hangul_sentence.rs:77-107 | "안녕하세요" gives ㅇㄴㅎㅅㅇ, and "Hello 안녕!" has 9 units and gives "Hello ㅇㄴ!" |

## Left out

- The Node, WebAssembly and benchmark crates are left out. They only wrap or time the core.
- The Rust `char` type is not modelled: a character is its code point. `from_u32_unchecked` cannot misbehave, because `ChoseongJamo.New`, `JungseongJamo.New` and `JongseongJamo.New` prove that both halves are scalar values. The duplicated `conjoining_value`/`compatibility_value` fields are not kept.
- Panic and `expect` messages, and the `Debug`, `Display` and `Error` implementations of `NormalizeError`, are left out. A panic is the `None` or `Err` case.
- `u32` arithmetic is modelled on unbounded naturals. In `Normalize` every subtraction happens after the range check, so it cannot wrap, and every value stays below U+D7A4.
- `NFD::is_nfd_hangul` and `NFC::is_nfc_hangul_char` are called by core/src/hangul_letter.rs (lines 31 and 54) but not defined in the files of the core. `Nfd.IsNfdHangul` and `Nfc.IsNfcHangulChar` define them from their call sites and the parser's tests: 2 or 3 conjoining jamo in order, and a single complete syllable.
- The library has no composing operation. `Nfd.Recombined` is the inverse arithmetic, written as a ghost function only to state the round-trip lemmas.
- `Hangul::new` and `HangulSentence::new` read NFC input character by character, as the source does. Conjoining jamo sequences in running text are not grouped into syllables; the source marks this as not yet supported.
- The helpers below have no row of their own. Their meaning is stated by the members that use them.
  - Predicates and accessors that mirror source functions:
    - `Nfc.IsNfcHangul` (core/src/nfc.rs:7-16) is characterised by `Nfc.NfcHangulCharacterised`.
    - `SyllableChar.GetChoseong` (core/src/hangul_char.rs:51-53) is characterised by `SyllableChar.GetChoseongByTable` and `SyllableChar.AgreesWithLetter`.
    - `Nfd.IsNfdHangul` and `Nfc.IsNfcHangulChar` are covered by the line above.
    - `ConvertToJamo`, `IsComplexJongseong`, `Letter.HasBatchim`, `SyllableChar.HasBatchim` and `Nfc.IsCompleteHangul` mirror source functions directly.
  - Range and validity predicates: `Utils.IsCompleteHangul`, `Utils.IsCompatibilityJamo`, `Utils.IsScalarValue`, the jamo modules' `IsConjoining…`/`IsCompatibility…` predicates and `Valid`, `Letter.WellFormed`, `Text.Wf`, `Sentence.Wf`, `Tables.StrictlyIncreasing` and `JongseongJamo.IsSimpleFinal`.
  - Specification functions of the operations: `Letter.JongseongLetters`, `Letter.Disassembled`, `SyllableChar.Disassembled`, `Text.Unit`, `Sentence.Unit`, `Text.UnitChoseong`, `Sentence.UnitChoseong` and `Sentence.NoCompoundFinal`.
  - Reference definitions that read the letters straight off the tables: `Letter.TableLetters`, `Letter.TableFinalLetters`, `Letter.JamoOf` and `Text.TableChoseong`.
  - Proof-only helpers: `Nfd.JongseongSlot` (written next to `Nfd.Recombined`, the ghost inverse described above), the arithmetic lemmas `Nfd.DivModUnique` and `Nfd.MulAtLeast`, `JongseongJamo.AbsentFromMapping` (a step of `JongseongJamo.NewFailures`) and `JongseongJamo.SplitOf` (a step of `JongseongJamo.SplitExamples`).
  - `Wrappers.Extract`, the model of `unwrap`.
- `Letter.Disassemble` returns the pushed sequence and does not model `String::with_capacity(4)`. That call reserves 4 bytes. The pushed jamo take 6 to 12 bytes in UTF-8, three per letter, so the string outgrows its reserve. Capacity has no observable effect on the result.
