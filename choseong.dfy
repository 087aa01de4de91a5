/** Leading consonants (choseong): conversion between the conjoining block
    U+1100..U+1112 and the compatibility letters, through a 19-entry table. */
module ChoseongJamo {
  import opened Wrappers
  import Tables
  import Utils

  const ChoseongBase: nat := 0x1100
  const ChoseongLast: nat := 0x1112
  const CompatChoseongBase: nat := 0x3131
  const CompatChoseongLast: nat := 0x314E

  /** Entry i is the compatibility letter of conjoining choseong 0x1100 + i.
      The compatibility block interleaves compound finals, hence the gaps. */
  const CompatibilityChoseongMapping: seq<nat> := [
    0x3131, 0x3132, 0x3134, 0x3137, 0x3138, 0x3139, 0x3141, 0x3142, 0x3143, 0x3145, 0x3146, 0x3147,
    0x3148, 0x3149, 0x314A, 0x314B, 0x314C, 0x314D, 0x314E
  ]

  /** One leading consonant in both of its encodings. */
  datatype Choseong = Choseong(conjoining: nat, compatibility: nat)

  predicate IsConjoiningChoseong(u: nat) {
    ChoseongBase <= u && u <= ChoseongLast
  }

  predicate IsCompatibilityChoseong(u: nat) {
    CompatChoseongBase <= u && u <= CompatChoseongLast
  }

  /** The two halves of `c` name the same consonant according to the table. */
  ghost predicate Valid(c: Choseong) {
    && IsConjoiningChoseong(c.conjoining)
    && CompatibilityChoseongMapping[c.conjoining - ChoseongBase] == c.compatibility
  }

  function ConjoiningChoseongToCompatibility(u: nat): (r: Option<nat>)
    ensures r.Some? <==> IsConjoiningChoseong(u)
    ensures r.Some? ==> Valid(Choseong(u, r.value))
  {
    if !IsConjoiningChoseong(u) then None
    else Tables.Get(CompatibilityChoseongMapping, u - ChoseongBase)
  }

  function CompatibilityToConjoiningChoseong(u: nat): (r: Option<nat>)
    ensures r.Some? <==> u in CompatibilityChoseongMapping
    ensures r.Some? ==> Valid(Choseong(r.value, u))
  {
    if !IsCompatibilityChoseong(u) then None
    else Tables.Offset(Tables.Position(CompatibilityChoseongMapping, u), ChoseongBase)
  }

  /** The (conjoining, compatibility) pair for `u`; `None` where the source panics,
      either because `u` is in neither range or because the table lookup fails. */
  function ConvertToJamo(u: nat): Option<(nat, nat)>
  {
    if IsConjoiningChoseong(u) then
      match ConjoiningChoseongToCompatibility(u)
      case Some(compat) => Some((u, compat))
      case None => None
    else if IsCompatibilityChoseong(u) then
      match CompatibilityToConjoiningChoseong(u)
      case Some(conj) => Some((conj, u))
      case None => None
    else None
  }

  /** `Choseong::new`: accepts a conjoining choseong, or a compatibility letter that
      the table lists; the code point given is kept as the matching half. */
  function New(u: nat): (r: Option<Choseong>)
    ensures r.Some? <==> IsConjoiningChoseong(u) || u in CompatibilityChoseongMapping
    ensures r.Some? ==> Valid(r.value) && (r.value.conjoining == u || r.value.compatibility == u)
    ensures r.Some? ==> Utils.IsScalarValue(r.value.conjoining) && Utils.IsScalarValue(r.value.compatibility)
  {
    match ConvertToJamo(u)
    case Some((conj, compat)) => Some(Choseong(conj, compat))
    case None => None
  }

  lemma MappingIncreasing()
    ensures Tables.StrictlyIncreasing(CompatibilityChoseongMapping)
  {
  }

  /** Searching the table for its entry i finds index i. */
  lemma PositionOfMappingEntry(i: nat)
    requires i < |CompatibilityChoseongMapping|
    ensures Tables.Position(CompatibilityChoseongMapping, CompatibilityChoseongMapping[i]) == Some(i)
  {
    MappingIncreasing();
    Tables.PositionOfEntry(CompatibilityChoseongMapping, i);
  }

  /** Every table entry lies in the accepted compatibility range. */
  lemma MappingInCompatibilityRange(i: nat)
    requires i < |CompatibilityChoseongMapping|
    ensures IsCompatibilityChoseong(CompatibilityChoseongMapping[i])
  {
  }

  /** Duality: a valid choseong is rebuilt unchanged from either of its halves. */
  lemma NewFromEitherHalf(c: Choseong)
    requires Valid(c)
    ensures New(c.conjoining) == Some(c)
    ensures New(c.compatibility) == Some(c)
  {
    var i := c.conjoining - ChoseongBase;
    assert New(c.conjoining) == Some(c);
    assert New(c.compatibility) == Some(c) by {
      PositionOfMappingEntry(i);
      MappingInCompatibilityRange(i);
    }
  }

  /** For every conjoining x, building from the compatibility half of `New(x)` gives `New(x)` again. */
  lemma Duality(x: nat)
    requires IsConjoiningChoseong(x)
    ensures New(x).Some? && New(New(x).value.compatibility) == New(x)
  {
    NewFromEitherHalf(New(x).value);
  }

  /** A compatibility letter in the table at position i gives conjoining choseong 0x1100 + i. */
  lemma NewFromCompatibility(i: nat)
    requires i < |CompatibilityChoseongMapping|
    ensures New(CompatibilityChoseongMapping[i]) == Some(Choseong(ChoseongBase + i, CompatibilityChoseongMapping[i]))
  {
    NewFromEitherHalf(Choseong(ChoseongBase + i, CompatibilityChoseongMapping[i]));
  }

  /** Construction on the values the source's tests use, from either block. */
  lemma NewExamples()
    ensures New(0x1100) == Some(Choseong(0x1100, 0x3131)) && New(0x1112) == Some(Choseong(0x1112, 0x314E))
    ensures New(0x3131) == Some(Choseong(0x1100, 0x3131)) && New(0x314E) == Some(Choseong(0x1112, 0x314E))
  {
    NewFromCompatibility(0);
    NewFromCompatibility(18);
  }

  /** A code point in neither range fails, and so does an in-range compatibility letter the table lacks. */
  lemma NewFailures()
    ensures New(0xAC00).None?
    ensures New(0x3133).None?
  {
    assert 0x3133 !in CompatibilityChoseongMapping by {
      forall i | 0 <= i < |CompatibilityChoseongMapping| ensures CompatibilityChoseongMapping[i] != 0x3133 { }
    }
  }

  /** The conversion helpers answer `None` just outside their ranges. */
  lemma ConversionBoundaries()
    ensures ConjoiningChoseongToCompatibility(0x10FF).None? && ConjoiningChoseongToCompatibility(0x1113).None?
    ensures CompatibilityToConjoiningChoseong(0x3130).None? && CompatibilityToConjoiningChoseong(0x314F).None?
  {
  }
}
