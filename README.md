# DNA mutation simulator — verified model of the store and its editing rules

This project models the logic of a browser simulation of a DNA double helix in
Dafny. The user edits the bases of ten base pairs. Character traits (eye,
hair and skin colour, height, body type) are derived from how often each base
occurs, and every edit is recorded in a mutation log. The model covers:

- `Dna` (dna.dfy): the bases A, T, C, G and their complement, base pairs,
  mutation records, the traits, `calculateTraits` (a counting loop plus the
  trait rules) and `createInitialDNA` (a loop building ten complementary
  pairs from random draws);
- `DnaStore` (dna_store.dfy): the store as a class with the fields
  `dnaSequence`, `mutations`, `traits` and `mutationCount`, its initial state,
  `mutateDNA` and `resetDNA`. The invariant `Valid()` says four things:
  - the traits always match the sequence;
  - the counter equals the log length and the records are numbered 0, 1, 2, …;
  - ids are positions;
  - the log, replayed from the sequence it started at, gives the current
    sequence, and every record's old bases are what its pair held when it was
    applied. Undoing the log therefore walks back to that starting sequence;
- `Mutations` (mutations.dfy): the effect catalog, `getEffectForMutation`
  and `getVisualEffectClassName`. It also shows that the catalog agrees with
  the trait rules: an edit to base b never moves any trait away from what b's
  cataloged effects announce;
- `BasePairView` (base_pair_view.dfy): the menu toggle (`handleBaseClick`)
  and the edit (`handleBaseChange`) of one base pair component;
- `DnaMolecule` (dna_molecule.dfy): the rotation-speed control
  (`handleSpeedChange`), clamped to [5, 40] seconds in steps of 5;
- `Wrappers` (wrappers.dfy): an `Option` type for `null` and for a
  `findIndex` that returns -1.

Modelling choices:

- Inputs that the program takes from its environment become parameters:
  - the ten `Math.random()` draws of `createInitialDNA` are a sequence of
    indices in 0..3 into the base table `[A, T, C, G]`;
  - the `new Date()` of a mutation record is an opaque `Timestamp` argument of
    `MutateDNA`;
  - `onMutate` is the `MutateCall` value that `HandleBaseChange` returns.
- Trait values that are strings in the source ("blue"/"brown", …) are
  enumerations here. The catalog's names and descriptions are kept verbatim.
- `mutateDNA` writes the new bases as given; it does not enforce
  complementarity (`resetDNA` does). The edit component computes a
  complementary base but never uses it. `EditBreaksComplement` proves that an
  edit to a different base always leaves a complementary pair
  non-complementary.
- Derived facts about the trait rules: on a fully complementary sequence the
  skin tone is always "light", and blue eyes come exactly with a slim body
  (`ComplementaryTraits`).

## Model

| member | source | states |
|---|---|---|
| `Dna.Complement` | src/store/dnaStore.ts:46-57 | the complement of a base is a different base and stays within the same pairing class (A/T or C/G) |
| `Dna.ComplementInvolutive` | src/store/dnaStore.ts:46-57 | complementing twice gives the base back |
| `Dna.ComplementInjective` | src/store/dnaStore.ts:46-57 | two bases have the same complement only if they are equal |
| `Dna.CountBounded` | src/store/dnaStore.ts:63-68 | each base count over both strands lies in 0..2·N |
| `Dna.CountsSum` | src/store/dnaStore.ts:63-68 | the four counts add up to 2·N: every base of every pair is counted once |
| `Dna.CountAfterUpdate` | src/store/dnaStore.ts:63-68 | replacing one pair changes each count by exactly the difference between the old and the new pair |
| `Dna.ComplementaryCounts` | src/store/dnaStore.ts:63-68 | on a complementary sequence A and T, and C and G, are counted equally often |
| `Dna.Increment` | src/store/dnaStore.ts:66-67 | `baseCounts[b]++` raises the count of b by one and leaves the other three unchanged |
| `Dna.TallyBases` | src/store/dnaStore.ts:63-68 | the counting loop yields, for every base, its number of occurrences over both strands |
| `Dna.Height` | src/store/dnaStore.ts:75 | height is 150 plus the T share of all 2·N bases scaled to 50, so it lies in [150, 200]: 150 with no T, 200 with only T |
| `Dna.HeightMonotone` | src/store/dnaStore.ts:75 | more T bases never give a lower height |
| `Dna.DeriveTraits` | src/store/dnaStore.ts:60-78 | the derived height of any non-empty sequence lies in [150, 200] |
| `Dna.TiesGoToElseBranch` | src/store/dnaStore.ts:72-76 | each comparison is strict, so a tie gives brown eyes, blonde hair, light skin and a muscular body |
| `Dna.ComplementaryTraits` | src/store/dnaStore.ts:72-76 | on a complementary sequence the skin is light, eyes are blue exactly when the body is slim, and hair is black exactly when C outnumbers A |
| `Dna.CalculateTraits` | src/store/dnaStore.ts:60-78 | the imperative tally-then-compare computation equals the trait derivation of the sequence |
| `Dna.CreateInitialDNA` | src/store/dnaStore.ts:81-99 | exactly 10 pairs; pair i has id i, the i-th random base on top and its complement below |
| `DnaStore.IndexOfId` | src/store/dnaStore.ts:115-116 | the first position whose pair carries the id, or none exactly when no pair carries it |
| `DnaStore.IndexOfPosition` | src/store/dnaStore.ts:115 | when ids are positions, looking up id i finds position i |
| `DnaStore.ReplayKeepsIds` | src/store/dnaStore.ts:124-128 | applying logged edits never changes which id sits at which position |
| `DnaStore.ChronicledAppend` | src/store/dnaStore.ts:131-146 | appending a record whose old bases match the current pair keeps every record faithful to its moment |
| `DnaStore.RevertReplay` | src/store/dnaStore.ts:131-139 | restoring the old bases of the records, newest first, undoes a faithful log back to its starting sequence |
| `DnaStore.LogRestoresOrigin` | src/store/dnaStore.ts:131-148 | in any valid store, undoing the whole mutation log gives back the sequence the log started from |
| `DnaStore.MutationKeepsConsistent` | src/store/dnaStore.ts:118-149 | replacing an existing pair and appending its record under the current counter keeps the whole store invariant: traits, counter, record numbering, ids and history |
| `DnaStore.Store.constructor` | src/store/dnaStore.ts:102-110 | the initial state: a valid store with 10 complementary pairs from the random draws, an empty log and a zero counter |
| `DnaStore.Store.MutateDNA` | src/store/dnaStore.ts:112-151 | an unknown id leaves sequence, log, traits and counter unchanged. A known id changes only that pair, to the given bases without complement enforcement, and appends one record with id = old counter and the old and new bases, even when nothing changes. The counter goes up by one and the traits match the new sequence |
| `DnaStore.Store.ResetDNA` | src/store/dnaStore.ts:153-163 | a fresh 10-pair complementary sequence from the draws, an empty log, a zero counter, and traits matching the sequence |
| `Mutations.BasePairEffects` | src/data/mutations.ts:10-68 | every base has exactly two effects, on two different traits, each with a non-empty visual class |
| `Mutations.GetEffectForMutation` | src/data/mutations.ts:70-75 | no effect exactly when old and new base are equal; otherwise an effect cataloged for the new base |
| `Mutations.SameBaseHasNoEffect` | src/data/mutations.ts:71 | keeping a base yields no effect |
| `Mutations.EffectIgnoresOldBase` | src/data/mutations.ts:74 | for a real change the result is the new base's first effect, whatever the old base was |
| `Mutations.FirstEffects` | src/data/mutations.ts:10-68 | the first effect is about eye colour for A ("Olhos Azuis") and G ("Olhos Castanhos"), and about hair colour for T ("Cabelo Loiro") and C ("Cabelo Escuro") |
| `Mutations.GetVisualEffectClassName` | src/data/mutations.ts:77-79 | the effect's visual class when present and non-empty, "none" otherwise; never empty |
| `Mutations.CatalogClassNames` | src/data/mutations.ts:74-79 | every effect the lookup returns is shown with its own visual class |
| `Mutations.CatalogNamesDrivenTraits` | src/data/mutations.ts:10-68 | each effect of a base names a trait whose rule compares that base's count |
| `Mutations.ReplacementNeverSetsBack` | src/data/mutations.ts:10-68 | replacing one other base by b never moves a trait away from the value b's effects announce, and never lowers height for T |
| `BasePairView.EditedPair` | src/components/DNABasePair.tsx:149-150 | the new base lands on the chosen side; the other side and the id are untouched |
| `BasePairView.ReselectIsIdentity` | src/components/DNABasePair.tsx:149-150 | choosing the base already shown rebuilds the same pair |
| `BasePairView.EditBreaksComplement` | src/components/DNABasePair.tsx:130-150 | the computed complement is unused, so changing one side of a complementary pair always leaves it non-complementary |
| `BasePairView.EditNeverSetsBackEffects` | src/components/DNABasePair.tsx:149-156 | the edit whose effect the tooltip shows never moves a trait away from what the new base's effects announce |
| `BasePairView.NextActive` | src/components/DNABasePair.tsx:124-126 | clicking the open side closes the menu; any other click opens the clicked side |
| `BasePairView.ClickTwice` | src/components/DNABasePair.tsx:124-126 | two clicks on one side close the menu, unless it started open on that side |
| `BasePairView.BasePairControl.constructor` | src/components/DNABasePair.tsx:118-120 | the menu starts closed and the tooltip hidden and empty |
| `BasePairView.BasePairControl.HandleBaseClick` | src/components/DNABasePair.tsx:124-126 | the open menu moves as `NextActive` says |
| `BasePairView.BasePairControl.HandleBaseChange` | src/components/DNABasePair.tsx:128-189 | the store is always called with the pair's id and the edited pair, even when nothing changed. The tooltip shows the new base's first effect exactly when the base changes. The menu ends closed |
| `DnaMolecule.NextSpeed` | src/components/DNAMolecule.tsx:159 | "faster" never goes below 5 nor raises a speed of at least 5; "slower" never goes above 40 nor lowers a speed of at most 40; each step moves by 5 or lands on a clamp |
| `DnaMolecule.NextSpeedValid` | src/components/DNAMolecule.tsx:159 | a step keeps a multiple of 5 within [5, 40] |
| `DnaMolecule.ClampsAreFixedPoints` | src/components/DNAMolecule.tsx:159 | "faster" at 5 stays 5; "slower" at 40 stays 40 |
| `DnaMolecule.StepIsExact` | src/components/DNAMolecule.tsx:159 | from any speed, "faster" takes off exactly 5 and "slower" adds exactly 5 whenever the result stays within [5, 40] (so 40 goes to 35 and 5 goes to 10); otherwise the step stops on the clamp it would cross |
| `DnaMolecule.SpeedAlwaysValid` | src/components/DNAMolecule.tsx:157-162 | from a valid speed, any series of presses keeps the speed valid |
| `DnaMolecule.ReachableSpeeds` | src/components/DNAMolecule.tsx:157-162 | from the initial 20 seconds, every reachable speed is a multiple of 5 in [5, 40] |
| `DnaMolecule.RotationControl.constructor` | src/components/DNAMolecule.tsx:106 | the speed starts at 20 seconds per rotation |
| `DnaMolecule.RotationControl.HandleSpeedChange` | src/components/DNAMolecule.tsx:157-162 | the speed takes the clamped step and stays valid |

## Left out

- The reactive store machinery (`create`, `set`, selector hooks and subscriber notification) is left out. The store is a plain class, and callers read its fields directly.
- `Dna.Height` computes the height exactly as `150 + (50 * T) / (2 * N)` on integers. The source computes `150 + floor((T / (2 * N)) * 50)` in double-precision floating point, which is not modelled. At the store's 10 pairs the two agree for every T in 0..20, so `DeriveTraits` matches the source at the only length the store holds. At other lengths they can differ: for N = 25 and T = 29 the source gives 178 and `Dna.Height` gives 179.
- `DeriveTraits` and `CalculateTraits` require a non-empty sequence. With no pairs the source would divide by zero, but the store never holds an empty sequence.
- `MutateDNA`: its two main ensures split on `IndexOfId`, the lookup by id that `findIndex` performs. Only the third ensures (same bases leave the sequence and traits unchanged) is stated by position `pairId`; this is the same pair because the store's invariant makes every id equal to its position.
- `HandleBaseChange` leaves out the timer that hides the tooltip after three seconds, the particle effect and the DOM position lookup. The unused complementary base is also not computed.
- `RotationControl.HandleSpeedChange` requires the class invariant (a valid speed). Every speed reachable from the constructor meets it.
- `GetVisualEffectClassName` takes an optional effect. The source types its argument as an effect but guards it with `?.`, so a missing effect also gives "none".
- Bases form a closed datatype, so no invalid base can reach the model. The source has no parsing step that could reject one.
- Rendering, animation, styling, the avatar, the particle effect, the mutation-log view with its date formatting, the rotation toggle and the page layout are not part of this model.
