/**
 * The DNA data model and the trait derivation of the DNA store
 * (src/store/dnaStore.ts): the four bases and their complement, base pairs,
 * mutation records, the character traits, `calculateTraits` and
 * `createInitialDNA`.
 */
module Dna {

  /** The four DNA bases. */
  datatype Base = A | T | C | G

  /** The base table `createInitialDNA` draws from, in its order. */
  const Bases: seq<Base> := [A, T, C, G]

  /** Number of pairs in a freshly created sequence. */
  const InitialLength: nat := 10

  /** Watson-Crick pairing: A with T, C with G. */
  function Complement(b: Base): (r: Base)
    ensures r != b
    ensures (b == A || b == T) <==> (r == A || r == T)
  {
    match b
    case A => T
    case T => A
    case C => G
    case G => C
  }

  lemma ComplementInvolutive(b: Base)
    ensures Complement(Complement(b)) == b
  {
  }

  lemma ComplementInjective(x: Base, y: Base)
    ensures Complement(x) == Complement(y) <==> x == y
  {
  }

  /** One rung of the helix: a stable id and the bases on both strands. */
  datatype BasePair = BasePair(id: int, top: Base, bottom: Base)

  predicate IsComplementary(p: BasePair) {
    p.bottom == Complement(p.top)
  }

  /** Every pair's id is its position: the shape `createInitialDNA` builds and `mutateDNA` keeps. */
  predicate IdsArePositions(s: seq<BasePair>) {
    forall i :: 0 <= i < |s| ==> s[i].id == i
  }

  predicate AllComplementary(s: seq<BasePair>) {
    forall i :: 0 <= i < |s| ==> IsComplementary(s[i])
  }

  /** The wall-clock time stamped on a record; an opaque value supplied by the caller. */
  type Timestamp = int

  /** One entry of the mutation log. */
  datatype Mutation = Mutation(
    id: int,
    pairId: int,
    oldTop: Base,
    oldBottom: Base,
    newTop: Base,
    newBottom: Base,
    timestamp: Timestamp)

  datatype EyeColor = Blue | Brown
  datatype HairColor = Black | Blonde
  datatype SkinTone = Dark | Light
  datatype BodyType = Slim | Muscular

  /** The character traits derived from a sequence. */
  datatype Traits = Traits(
    eyeColor: EyeColor,
    hairColor: HairColor,
    skinTone: SkinTone,
    height: int,
    bodyType: BodyType)

  // ---------------------------------------------------------------------
  // Counting bases over both strands

  /** How often `b` occurs in one pair (top and bottom together). */
  function Occurrences(p: BasePair, b: Base): nat {
    (if p.top == b then 1 else 0) + (if p.bottom == b then 1 else 0)
  }

  /** How often `b` occurs over both strands of `s`. */
  function Count(s: seq<BasePair>, b: Base): nat {
    if s == [] then 0 else Count(s[..|s| - 1], b) + Occurrences(s[|s| - 1], b)
  }

  /** The tally object `calculateTraits` fills in. */
  datatype BaseCounts = BaseCounts(a: nat, t: nat, c: nat, g: nat)

  function CountFor(k: BaseCounts, b: Base): nat {
    match b
    case A => k.a
    case T => k.t
    case C => k.c
    case G => k.g
  }

  /** `baseCounts[b]++`. */
  function Increment(k: BaseCounts, b: Base): (r: BaseCounts)
    ensures CountFor(r, b) == CountFor(k, b) + 1
    ensures forall x :: x != b ==> CountFor(r, x) == CountFor(k, x)
  {
    match b
    case A => k.(a := k.a + 1)
    case T => k.(t := k.t + 1)
    case C => k.(c := k.c + 1)
    case G => k.(g := k.g + 1)
  }

  /** The counts of all four bases over both strands of `s`. */
  function Tally(s: seq<BasePair>): BaseCounts {
    BaseCounts(Count(s, A), Count(s, T), Count(s, C), Count(s, G))
  }

  lemma {:induction false} CountBounded(s: seq<BasePair>, b: Base)
    ensures Count(s, b) <= 2 * |s|
  {
    if s != [] {
      CountBounded(s[..|s| - 1], b);
    }
  }

  /** Every base of every pair is counted exactly once. */
  lemma {:induction false} CountsSum(s: seq<BasePair>)
    ensures Count(s, A) + Count(s, T) + Count(s, C) + Count(s, G) == 2 * |s|
  {
    if s != [] {
      CountsSum(s[..|s| - 1]);
    }
  }

  /** Replacing the pair at `i` changes each count by the difference of the two pairs. */
  lemma {:induction false} CountAfterUpdate(s: seq<BasePair>, i: nat, p: BasePair, b: Base)
    requires i < |s|
    ensures Count(s[i := p], b) + Occurrences(s[i], b) == Count(s, b) + Occurrences(p, b)
  {
    var n := |s| - 1;
    assert s[i := p][..n] == if i == n then s[..n] else s[..n][i := p];
    if i < n {
      CountAfterUpdate(s[..n], i, p, b);
    }
  }

  /** In a sequence of complementary pairs A and T, and C and G, occur equally often. */
  lemma {:induction false} ComplementaryCounts(s: seq<BasePair>)
    requires AllComplementary(s)
    ensures Count(s, A) == Count(s, T) && Count(s, C) == Count(s, G)
  {
    if s != [] {
      ComplementaryCounts(s[..|s| - 1]);
    }
  }

  // ---------------------------------------------------------------------
  // Trait derivation

  /** 150 plus the share of T among all `2 * n` bases, scaled to 50 and rounded down. */
  function Height(t: nat, n: nat): (h: int)
    requires n > 0 && t <= 2 * n
    ensures 150 <= h <= 200
    ensures t == 0 ==> h == 150
    ensures t == 2 * n ==> h == 200
  {
    HeightShareBounded(t, n);
    150 + (50 * t) / (2 * n)
  }

  lemma HeightShareBounded(t: nat, n: nat)
    requires n > 0 && t <= 2 * n
    ensures 0 <= (50 * t) / (2 * n) <= 50
    ensures t == 0 ==> (50 * t) / (2 * n) == 0
    ensures t == 2 * n ==> (50 * t) / (2 * n) == 50
  {
    var d, x := 2 * n, 50 * t;
    MulMonotone(t, d, 50);
    assert x < (50 + 1) * d;
    DivAtMost(x, d, 50);
    if t == 2 * n {
      DivExact(50, d);
      assert x == 50 * d;
    }
  }

  /** Height grows with the number of T bases. */
  lemma HeightMonotone(t: nat, t': nat, n: nat)
    requires n > 0 && t <= t' <= 2 * n
    ensures Height(t, n) <= Height(t', n)
  {
    MulMonotone(t, t', 50);
    DivMonotone(50 * t, 50 * t', 2 * n);
  }

  lemma MulMonotone(a: int, b: int, c: nat)
    requires a <= b
    ensures c * a <= c * b
  {
  }

  lemma DivAtMost(x: nat, d: nat, m: nat)
    requires d > 0 && x < (m + 1) * d
    ensures 0 <= x / d <= m
  {
    var q := x / d;
    assert d * q + x % d == x;
    if q > m {
      MulMonotone(m + 1, q, d);
    } else if q < 0 {
      MulMonotone(q, -1, d);
    }
  }

  lemma DivExact(m: nat, d: nat)
    requires d > 0
    ensures (m * d) / d == m
  {
    var q := (m * d) / d;
    assert d * q + (m * d) % d == m * d;
    DivAtMost(m * d, d, m);
    if q < m {
      MulMonotone(q + 1, m, d);
    }
  }

  lemma DivMonotone(x: nat, y: nat, d: nat)
    requires d > 0 && x <= y
    ensures x / d <= y / d
  {
    var q, q' := x / d, y / d;
    assert d * q + x % d == x;
    assert d * q' + y % d == y;
    if q > q' {
      MulMonotone(q' + 1, q, d);
    }
  }

  /** The traits for a tally over a sequence of `n` pairs, every comparison strict. */
  function TraitsFromCounts(k: BaseCounts, n: nat): Traits
    requires n > 0 && k.t <= 2 * n
  {
    Traits(
      if k.a > k.g then Blue else Brown,
      if k.c > k.t then Black else Blonde,
      if k.g > k.c then Dark else Light,
      Height(k.t, n),
      if k.a > k.c then Slim else Muscular)
  }

  /** `calculateTraits`, as the function the store's invariant is stated with. */
  function DeriveTraits(s: seq<BasePair>): (traits: Traits)
    requires |s| > 0
    ensures 150 <= traits.height <= 200
  {
    CountBounded(s, T);
    TraitsFromCounts(Tally(s), |s|)
  }

  /** Every comparison is strict: a tie selects the second alternative. */
  lemma TiesGoToElseBranch(s: seq<BasePair>)
    requires |s| > 0
    ensures Count(s, A) == Count(s, G) ==> DeriveTraits(s).eyeColor == Brown
    ensures Count(s, C) == Count(s, T) ==> DeriveTraits(s).hairColor == Blonde
    ensures Count(s, G) == Count(s, C) ==> DeriveTraits(s).skinTone == Light
    ensures Count(s, A) == Count(s, C) ==> DeriveTraits(s).bodyType == Muscular
  {
  }

  /**
   * On a fully complementary sequence (what `createInitialDNA` produces) the skin
   * tone is always light, and blue eyes go together with a slim body.
   */
  lemma ComplementaryTraits(s: seq<BasePair>)
    requires |s| > 0 && AllComplementary(s)
    ensures DeriveTraits(s).skinTone == Light
    ensures DeriveTraits(s).eyeColor == Blue <==> DeriveTraits(s).bodyType == Slim
    ensures DeriveTraits(s).hairColor == Black <==> Count(s, C) > Count(s, A)
  {
    ComplementaryCounts(s);
  }

  /** `calculateTraits`: tally both strands of every pair, then compare. */
  method CalculateTraits(sequence: seq<BasePair>) returns (traits: Traits)
    requires |sequence| > 0
    ensures traits == DeriveTraits(sequence)
  {
    var baseCounts := TallyBases(sequence);
    CountBounded(sequence, T);
    traits := TraitsFromCounts(baseCounts, |sequence|);
  }

  /** The `forEach` loop of `calculateTraits`. */
  method TallyBases(sequence: seq<BasePair>) returns (baseCounts: BaseCounts)
    ensures baseCounts == Tally(sequence)
  {
    baseCounts := BaseCounts(0, 0, 0, 0);
    for i := 0 to |sequence|
      invariant baseCounts == Tally(sequence[..i])
    {
      assert sequence[..i + 1][..i] == sequence[..i];
      baseCounts := Increment(baseCounts, sequence[i].top);
      baseCounts := Increment(baseCounts, sequence[i].bottom);
    }
    assert sequence[..|sequence|] == sequence;
  }

  // ---------------------------------------------------------------------
  // Initial sequence

  /** The random draws `createInitialDNA` needs: one index into `Bases` per pair. */
  predicate ValidDraws(randomIndices: seq<int>) {
    |randomIndices| == InitialLength
    && forall k :: 0 <= k < |randomIndices| ==> 0 <= randomIndices[k] < |Bases|
  }

  /**
   * `createInitialDNA`: pair `i` has id `i`, its top is the `i`-th random draw and
   * its bottom is the complement of its top.
   */
  method CreateInitialDNA(randomIndices: seq<int>) returns (sequence: seq<BasePair>)
    requires ValidDraws(randomIndices)
    ensures |sequence| == InitialLength
    ensures IdsArePositions(sequence) && AllComplementary(sequence)
    ensures forall i :: 0 <= i < |sequence| ==> sequence[i].top == Bases[randomIndices[i]]
  {
    sequence := [];
    for i := 0 to InitialLength
      invariant |sequence| == i
      invariant IdsArePositions(sequence) && AllComplementary(sequence)
      invariant forall j :: 0 <= j < i ==> sequence[j].top == Bases[randomIndices[j]]
    {
      var topBase := Bases[randomIndices[i]];
      var bottomBase := Complement(topBase);
      sequence := sequence + [BasePair(i, topBase, bottomBase)];
    }
  }
}
