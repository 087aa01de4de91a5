/** Vowels (jungseong): conversion between the conjoining block U+1161..U+1175
    and the compatibility letters, through a 21-entry table. */
module JungseongJamo {
  import opened Wrappers
  import Tables
  import Utils

  const JungseongBase: nat := 0x1161
  const JungseongLast: nat := 0x1175
  const CompatJungseongBase: nat := 0x314F
  const CompatJungseongLast: nat := 0x3163

  /** Entry i is the compatibility letter of conjoining jungseong 0x1161 + i. */
  const CompatibilityJungseongMapping: seq<nat> := [
    0x314F, 0x3150, 0x3151, 0x3152, 0x3153, 0x3154, 0x3155, 0x3156, 0x3157, 0x3158, 0x3159, 0x315A,
    0x315B, 0x315C, 0x315D, 0x315E, 0x315F, 0x3160, 0x3161, 0x3162, 0x3163
  ]

  /** One vowel in both of its encodings. */
  datatype Jungseong = Jungseong(conjoining: nat, compatibility: nat)

  predicate IsConjoiningJungseong(u: nat) {
    JungseongBase <= u && u <= JungseongLast
  }

  predicate IsCompatibilityJungseong(u: nat) {
    CompatJungseongBase <= u && u <= CompatJungseongLast
  }

  ghost predicate Valid(v: Jungseong) {
    && IsConjoiningJungseong(v.conjoining)
    && CompatibilityJungseongMapping[v.conjoining - JungseongBase] == v.compatibility
  }

  /** The table is contiguous: entry i is 0x314F + i, so conversion is the constant offset 0x1FEE. */
  lemma MappingContiguous(i: nat)
    requires i < |CompatibilityJungseongMapping|
    ensures CompatibilityJungseongMapping[i] == CompatJungseongBase + i
  {
  }

  function CompatibilityToConjoiningJungseong(u: nat): (r: Option<nat>)
    ensures r.Some? <==> IsCompatibilityJungseong(u)
    ensures r.Some? ==> r.value == u - 0x1FEE && Valid(Jungseong(r.value, u))
  {
    if !Utils.IsCompatibilityJamo(u) || !IsCompatibilityJungseong(u) then None
    else
      PositionInMapping(u);
      Tables.Offset(Tables.Position(CompatibilityJungseongMapping, u), JungseongBase)
  }

  /** Every vowel letter of the compatibility range is found, at its offset from 0x314F. */
  lemma PositionInMapping(u: nat)
    requires IsCompatibilityJungseong(u)
    ensures Tables.Position(CompatibilityJungseongMapping, u) == Some(u - CompatJungseongBase)
  {
    MappingContiguous(u - CompatJungseongBase);
    Tables.PositionOfEntry(CompatibilityJungseongMapping, u - CompatJungseongBase);
  }

  function ConjoiningJungseongToCompatibility(u: nat): (r: Option<nat>)
    ensures r.Some? <==> IsConjoiningJungseong(u)
    ensures r.Some? ==> r.value == u + 0x1FEE && Valid(Jungseong(u, r.value))
  {
    if !IsConjoiningJungseong(u) then None
    else
      MappingContiguous(u - JungseongBase);
      Tables.Get(CompatibilityJungseongMapping, u - JungseongBase)
  }

  /** The (conjoining, compatibility) pair for `u`; `None` where the source panics. */
  function ConvertToJamo(u: nat): Option<(nat, nat)>
  {
    if IsConjoiningJungseong(u) then
      match ConjoiningJungseongToCompatibility(u)
      case Some(compat) => Some((u, compat))
      case None => None
    else if IsCompatibilityJungseong(u) then
      match CompatibilityToConjoiningJungseong(u)
      case Some(conj) => Some((conj, u))
      case None => None
    else None
  }

  /** `Jungseong::new`: every code point of either range is accepted, nothing else. */
  function New(u: nat): (r: Option<Jungseong>)
    ensures r.Some? <==> IsConjoiningJungseong(u) || IsCompatibilityJungseong(u)
    ensures r.Some? ==> Valid(r.value) && (r.value.conjoining == u || r.value.compatibility == u)
    ensures r.Some? ==> r.value.compatibility == r.value.conjoining + 0x1FEE
    ensures r.Some? ==> Utils.IsScalarValue(r.value.conjoining) && Utils.IsScalarValue(r.value.compatibility)
  {
    match ConvertToJamo(u)
    case Some((conj, compat)) => Some(Jungseong(conj, compat))
    case None => None
  }

  /** The compatibility-jamo guard in the reverse conversion never decides anything:
      the vowel range lies inside the compatibility-jamo block. */
  lemma JamoGuardRedundant(u: nat)
    ensures IsCompatibilityJungseong(u) ==> Utils.IsCompatibilityJamo(u)
  {
  }

  /** Duality: a valid jungseong is rebuilt unchanged from either of its halves. */
  lemma NewFromEitherHalf(v: Jungseong)
    requires Valid(v)
    ensures New(v.conjoining) == Some(v)
    ensures New(v.compatibility) == Some(v)
  {
    MappingContiguous(v.conjoining - JungseongBase);
  }

  /** For every conjoining x, building from the compatibility half of `New(x)` gives `New(x)` again. */
  lemma Duality(x: nat)
    requires IsConjoiningJungseong(x)
    ensures New(x).Some? && New(New(x).value.compatibility) == New(x)
  {
    NewFromEitherHalf(New(x).value);
  }

  /** Construction and conversion on the values the source's tests use. */
  lemma Examples()
    ensures New(0x1161) == Some(Jungseong(0x1161, 0x314F)) && New(0x314F) == Some(Jungseong(0x1161, 0x314F))
    ensures New(0x3131).None?
    ensures CompatibilityToConjoiningJungseong(0x314F) == Some(0x1161)
    ensures CompatibilityToConjoiningJungseong(0x3163) == Some(0x1175)
    ensures CompatibilityToConjoiningJungseong(0x1161).None? && CompatibilityToConjoiningJungseong(0x3164).None?
    ensures ConjoiningJungseongToCompatibility(0x1175) == Some(0x3163)
    ensures ConjoiningJungseongToCompatibility(0x1160).None? && ConjoiningJungseongToCompatibility(0x1176).None?
    ensures ConjoiningJungseongToCompatibility(0x314F).None?
  {
  }
}
