/**
 * The mutation-effect catalog of src/data/mutations.ts: for each base, the
 * ordered list of effects shown in a tooltip when a base is edited to it.
 */
module Mutations {
  import opened Wrappers
  import opened Dna

  /** The trait an effect talks about. */
  datatype AffectedTrait = EyeColorTrait | HairColorTrait | SkinToneTrait | HeightTrait | BodyTypeTrait

  datatype MutationEffect = MutationEffect(
    name: string,
    description: string,
    affectedTrait: AffectedTrait,
    visualEffect: string)

  // The eight cataloged effects, two per base.
  const BlueEyes := MutationEffect(
    "Olhos Azuis",
    "A adenina em concentração elevada está associada à pigmentação azul da íris.",
    EyeColorTrait,
    "fade-pulse")
  const SlimBody := MutationEffect(
    "Corpo Magro",
    "A presença dominante de adenina promove metabolismo acelerado.",
    BodyTypeTrait,
    "stretch-vertical")
  const BlondeHair := MutationEffect(
    "Cabelo Loiro",
    "A timina dominante está relacionada à menor produção de melanina capilar.",
    HairColorTrait,
    "color-shift")
  const TallStature := MutationEffect(
    "Altura Elevada",
    "Altas concentrações de timina estão associadas ao crescimento ósseo prolongado.",
    HeightTrait,
    "grow-up")
  const DarkHair := MutationEffect(
    "Cabelo Escuro",
    "A citosina dominante favorece maior produção de melanina capilar.",
    HairColorTrait,
    "color-shift-reverse")
  const MuscularBody := MutationEffect(
    "Corpo Musculoso",
    "A citosina em altas concentrações está ligada ao desenvolvimento muscular.",
    BodyTypeTrait,
    "expand-width")
  const BrownEyes := MutationEffect(
    "Olhos Castanhos",
    "A guanina dominante promove maior produção de melanina na íris.",
    EyeColorTrait,
    "fade-pulse-reverse")
  const DarkSkin := MutationEffect(
    "Pele Escura",
    "Altas concentrações de guanina favorecem maior produção de melanina na pele.",
    SkinToneTrait,
    "tone-darken")

  /** `basePairEffects`: two effects per base, each naming a different trait. */
  function BasePairEffects(b: Base): (effects: seq<MutationEffect>)
    ensures |effects| == 2
    ensures effects[0].affectedTrait != effects[1].affectedTrait
    ensures forall k :: 0 <= k < |effects| ==> effects[k].visualEffect != ""
  {
    match b
    case A => [BlueEyes, SlimBody]
    case T => [BlondeHair, TallStature]
    case C => [DarkHair, MuscularBody]
    case G => [BrownEyes, DarkSkin]
  }

  /**
   * `getEffectForMutation`: nothing when the base does not change, otherwise the
   * first cataloged effect of the new base.
   */
  function GetEffectForMutation(oldBase: Base, newBase: Base): (effect: Option<MutationEffect>)
    ensures effect.None? <==> oldBase == newBase
    ensures effect.Some? ==> effect.value in BasePairEffects(newBase)
  {
    if oldBase == newBase then None else Some(BasePairEffects(newBase)[0])
  }

  lemma SameBaseHasNoEffect(b: Base)
    ensures GetEffectForMutation(b, b) == None
  {
  }

  /** Beyond the equality check the old base plays no part: the first effect of the new base is chosen. */
  lemma EffectIgnoresOldBase(oldBase: Base, otherOld: Base, newBase: Base)
    requires oldBase != newBase && otherOld != newBase
    ensures GetEffectForMutation(oldBase, newBase) == GetEffectForMutation(otherOld, newBase)
    ensures GetEffectForMutation(oldBase, newBase) == Some(BasePairEffects(newBase)[0])
  {
  }

  /** The effect a tooltip shows for each new base. */
  lemma FirstEffects()
    ensures BasePairEffects(A)[0].affectedTrait == EyeColorTrait && BasePairEffects(A)[0].name == "Olhos Azuis"
    ensures BasePairEffects(G)[0].affectedTrait == EyeColorTrait && BasePairEffects(G)[0].name == "Olhos Castanhos"
    ensures BasePairEffects(T)[0].affectedTrait == HairColorTrait && BasePairEffects(T)[0].name == "Cabelo Loiro"
    ensures BasePairEffects(C)[0].affectedTrait == HairColorTrait && BasePairEffects(C)[0].name == "Cabelo Escuro"
  {
  }

  /**
   * `getVisualEffectClassName`: the effect's visual class when there is an effect
   * and its class is not empty, otherwise "none"; never the empty string.
   */
  function GetVisualEffectClassName(effect: Option<MutationEffect>): (className: string)
    ensures className != ""
    ensures effect.Some? && effect.value.visualEffect != "" ==> className == effect.value.visualEffect
    ensures effect.None? || effect.value.visualEffect == "" ==> className == "none"
  {
    if effect.Some? && effect.value.visualEffect != "" then effect.value.visualEffect else "none"
  }

  /** Every effect the catalog can produce gets its own visual class. */
  lemma CatalogClassNames(oldBase: Base, newBase: Base)
    requires oldBase != newBase
    ensures GetVisualEffectClassName(GetEffectForMutation(oldBase, newBase))
      == BasePairEffects(newBase)[0].visualEffect
  {
  }

  // ---------------------------------------------------------------------
  // The catalog against the trait model

  /**
   * What effect `k` of base `b` announces, read from its name: the trait does
   * not move away from the announced value between `before` and `after`.
   * ("Olhos Azuis": blue eyes, "Corpo Magro": slim body, "Cabelo Loiro": blonde
   * hair, "Altura Elevada": tall, "Cabelo Escuro": dark hair, "Corpo Musculoso":
   * muscular body, "Olhos Castanhos": brown eyes, "Pele Escura": dark skin.)
   */
  predicate NoSetback(b: Base, k: nat, before: Traits, after: Traits) {
    match (b, k)
    case (A, 0) => before.eyeColor == Blue ==> after.eyeColor == Blue
    case (A, _) => before.bodyType == Slim ==> after.bodyType == Slim
    case (T, 0) => before.hairColor == Blonde ==> after.hairColor == Blonde
    case (T, _) => before.height <= after.height
    case (C, 0) => before.hairColor == Black ==> after.hairColor == Black
    case (C, _) => before.bodyType == Muscular ==> after.bodyType == Muscular
    case (G, 0) => before.eyeColor == Brown ==> after.eyeColor == Brown
    case (G, _) => before.skinTone == Dark ==> after.skinTone == Dark
  }

  /** The traits each effect of a base names are the traits whose rule reads that base's count. */
  lemma CatalogNamesDrivenTraits(b: Base, k: nat)
    requires k < 2
    ensures var t := BasePairEffects(b)[k].affectedTrait;
      match b
      case A => t == EyeColorTrait || t == BodyTypeTrait
      case T => t == HairColorTrait || t == HeightTrait
      case C => t == HairColorTrait || t == BodyTypeTrait
      case G => t == EyeColorTrait || t == SkinToneTrait
  {
  }

  /**
   * Replacing one occurrence of another base by `b` (one side of the pair at `i`)
   * never sets back any effect the catalog lists for `b`.
   */
  lemma {:induction false} ReplacementNeverSetsBack(s: seq<BasePair>, i: nat, p: BasePair, b: Base)
    requires i < |s|
    requires Occurrences(p, b) == Occurrences(s[i], b) + 1
    requires forall x :: x != b ==> Occurrences(p, x) <= Occurrences(s[i], x)
    ensures NoSetback(b, 0, DeriveTraits(s), DeriveTraits(s[i := p]))
    ensures NoSetback(b, 1, DeriveTraits(s), DeriveTraits(s[i := p]))
  {
    var s' := s[i := p];
    CountAfterUpdate(s, i, p, A);
    CountAfterUpdate(s, i, p, T);
    CountAfterUpdate(s, i, p, C);
    CountAfterUpdate(s, i, p, G);
    CountBounded(s, T);
    CountBounded(s', T);
    if b == T {
      HeightMonotone(Count(s, T), Count(s', T), |s|);
    } else {
      HeightMonotone(Count(s', T), Count(s, T), |s|);
    }
  }
}
