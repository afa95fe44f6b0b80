/**
 * The DNA store of src/store/dnaStore.ts: the live sequence, the mutation log,
 * the derived traits and the mutation counter, changed only by `mutateDNA`
 * and `resetDNA`.
 */
module DnaStore {
  import opened Wrappers
  import opened Dna

  /** `findIndex(pair => pair.id === pairId)`: the first position carrying `pairId`, if any. */
  function IndexOfId(s: seq<BasePair>, pairId: int): (r: Option<nat>)
    ensures r.None? <==> forall i :: 0 <= i < |s| ==> s[i].id != pairId
    ensures r.Some? ==> r.value < |s| && s[r.value].id == pairId
    ensures r.Some? ==> forall j :: 0 <= j < r.value ==> s[j].id != pairId
  {
    if s == [] then None
    else if s[0].id == pairId then Some(0)
    else match IndexOfId(s[1..], pairId)
      case None => None
      case Some(i) => Some(i + 1)
  }

  lemma IndexOfPosition(s: seq<BasePair>, i: nat)
    requires IdsArePositions(s) && i < |s|
    ensures IndexOfId(s, i) == Some(i)
  {
    assert s[i].id == i;
  }

  // ---------------------------------------------------------------------
  // The log as a history of the sequence

  /** The sequence after the edit a record describes: the addressed pair takes the new bases. */
  function Apply(s: seq<BasePair>, m: Mutation): (r: seq<BasePair>)
    ensures |r| == |s|
  {
    match IndexOfId(s, m.pairId)
    case None => s
    case Some(i) => s[i := BasePair(m.pairId, m.newTop, m.newBottom)]
  }

  /** The sequence reached from `origin` by applying the records of `log` in order. */
  function Replay(origin: seq<BasePair>, log: seq<Mutation>): (r: seq<BasePair>)
    ensures |r| == |origin|
  {
    if log == [] then origin else Apply(Replay(origin, log[..|log| - 1]), log[|log| - 1])
  }

  /** A record's old bases are the bases its pair had when it was applied. */
  predicate Recorded(s: seq<BasePair>, m: Mutation) {
    match IndexOfId(s, m.pairId)
    case None => false
    case Some(i) => s[i].top == m.oldTop && s[i].bottom == m.oldBottom
  }

  /** Every record is faithful to the sequence it was applied to. */
  predicate Chronicled(origin: seq<BasePair>, log: seq<Mutation>) {
    forall k :: 0 <= k < |log| ==> Recorded(Replay(origin, log[..k]), log[k])
  }

  lemma {:induction false} ReplayKeepsIds(origin: seq<BasePair>, log: seq<Mutation>)
    requires IdsArePositions(origin)
    ensures IdsArePositions(Replay(origin, log))
  {
    if log != [] {
      ReplayKeepsIds(origin, log[..|log| - 1]);
    }
  }

  lemma ReplayAppend(origin: seq<BasePair>, log: seq<Mutation>, m: Mutation)
    ensures Replay(origin, log + [m]) == Apply(Replay(origin, log), m)
  {
    assert (log + [m])[..|log|] == log;
  }

  lemma {:induction false} ChronicledAppend(origin: seq<BasePair>, log: seq<Mutation>, m: Mutation)
    requires Chronicled(origin, log)
    requires Recorded(Replay(origin, log), m)
    ensures Chronicled(origin, log + [m])
  {
    var log' := log + [m];
    forall k | 0 <= k < |log'|
      ensures Recorded(Replay(origin, log'[..k]), log'[k])
    {
      if k < |log| {
        assert log'[..k] == log[..k];
      } else {
        assert log'[..k] == log;
      }
    }
  }

  /**
   * Undoing the log: applying each record's old bases, newest first, walks the
   * sequence back to where the log started.
   */
  function Revert(s: seq<BasePair>, log: seq<Mutation>): (r: seq<BasePair>)
    ensures |r| == |s|
    decreases log
  {
    if log == [] then s
    else
      var m := log[|log| - 1];
      Revert(Apply(s, m.(newTop := m.oldTop, newBottom := m.oldBottom)), log[..|log| - 1])
  }

  lemma {:induction false} RevertReplay(origin: seq<BasePair>, log: seq<Mutation>)
    requires IdsArePositions(origin) && Chronicled(origin, log)
    ensures Revert(Replay(origin, log), log) == origin
  {
    if log != [] {
      var n := |log| - 1;
      var prefix, m := log[..n], log[n];
      var before := Replay(origin, prefix);
      assert log[..n] == prefix;
      assert Recorded(before, m);
      ReplayKeepsIds(origin, prefix);
      var i := m.pairId;
      assert IndexOfId(before, i) == Some(i);
      var after := Replay(origin, log);
      assert after == before[i := BasePair(i, m.newTop, m.newBottom)];
      assert Apply(after, m.(newTop := m.oldTop, newBottom := m.oldBottom)) == before;
      assert Chronicled(origin, prefix) by {
        forall k | 0 <= k < |prefix|
          ensures Recorded(Replay(origin, prefix[..k]), prefix[k])
        {
          assert prefix[..k] == log[..k];
        }
      }
      RevertReplay(origin, prefix);
    }
  }

  // ---------------------------------------------------------------------
  // The store

  /**
   * The store's invariant on the values of its fields: ten pairs whose ids are
   * their positions, traits that match the sequence, a counter equal to the log
   * length, records numbered 0, 1, 2, ... addressing existing pairs, and a log
   * that replays `origin` into the current sequence, each record faithful to
   * the moment it was applied.
   */
  ghost predicate Consistent(
    dnaSequence: seq<BasePair>, mutations: seq<Mutation>, traits: Traits, mutationCount: int,
    origin: seq<BasePair>)
  {
    && |dnaSequence| == InitialLength
    && IdsArePositions(dnaSequence)
    && traits == DeriveTraits(dnaSequence)
    && mutationCount == |mutations|
    && (forall k :: 0 <= k < |mutations| ==> mutations[k].id == k)
    && (forall k :: 0 <= k < |mutations| ==> 0 <= mutations[k].pairId < |dnaSequence|)
    && IdsArePositions(origin)
    && dnaSequence == Replay(origin, mutations)
    && Chronicled(origin, mutations)
  }

  /** A mutation of an existing pair, recorded under the current counter, keeps the invariant. */
  lemma MutationKeepsConsistent(
    dnaSequence: seq<BasePair>, mutations: seq<Mutation>, traits: Traits, origin: seq<BasePair>,
    pairId: nat, newTop: Base, newBottom: Base, now: Timestamp)
    requires Consistent(dnaSequence, mutations, traits, |mutations|, origin)
    requires pairId < |dnaSequence|
    ensures var m := Mutation(|mutations|, pairId, dnaSequence[pairId].top, dnaSequence[pairId].bottom,
                              newTop, newBottom, now);
            var s' := dnaSequence[pairId := BasePair(pairId, newTop, newBottom)];
            Consistent(s', mutations + [m], DeriveTraits(s'), |mutations| + 1, origin)
  {
    var m := Mutation(|mutations|, pairId, dnaSequence[pairId].top, dnaSequence[pairId].bottom,
                      newTop, newBottom, now);
    var s' := dnaSequence[pairId := BasePair(pairId, newTop, newBottom)];
    IndexOfPosition(dnaSequence, pairId);
    assert Recorded(dnaSequence, m);
    assert Apply(dnaSequence, m) == s';
    ReplayAppend(origin, mutations, m);
    ChronicledAppend(origin, mutations, m);
    assert IdsArePositions(s');
  }

  class Store {
    var dnaSequence: seq<BasePair>
    var mutations: seq<Mutation>
    var traits: Traits
    var mutationCount: int

    /** The sequence as it was when the log was last emptied. */
    ghost var origin: seq<BasePair>

    ghost predicate Valid()
      reads this
    {
      Consistent(dnaSequence, mutations, traits, mutationCount, origin)
    }

    /** The store's initial state: a fresh random sequence, an empty log, a zero counter. */
    constructor (randomIndices: seq<int>)
      requires ValidDraws(randomIndices)
      ensures Valid()
      ensures mutations == [] && mutationCount == 0
      ensures AllComplementary(dnaSequence)
      ensures forall i :: 0 <= i < |dnaSequence| ==> dnaSequence[i].top == Bases[randomIndices[i]]
    {
      var initialDNA := CreateInitialDNA(randomIndices);
      var initialTraits := CalculateTraits(initialDNA);
      dnaSequence := initialDNA;
      mutations := [];
      traits := initialTraits;
      mutationCount := 0;
      origin := initialDNA;
    }

    /**
     * `mutateDNA`: an unknown `pairId` leaves everything as it was; otherwise the
     * addressed pair takes the given bases (complementary or not), one record is
     * appended and the traits are recomputed.
     */
    method MutateDNA(pairId: int, newTop: Base, newBottom: Base, now: Timestamp)
      requires Valid()
      modifies this
      ensures Valid()
      ensures origin == old(origin)
      ensures IndexOfId(old(dnaSequence), pairId).None? ==>
        && dnaSequence == old(dnaSequence)
        && mutations == old(mutations)
        && traits == old(traits)
        && mutationCount == old(mutationCount)
      ensures IndexOfId(old(dnaSequence), pairId).Some? ==>
        var i := IndexOfId(old(dnaSequence), pairId).value;
        && i == pairId
        && dnaSequence == old(dnaSequence)[i := BasePair(pairId, newTop, newBottom)]
        && mutations == old(mutations) + [Mutation(
             old(mutationCount), pairId,
             old(dnaSequence)[i].top, old(dnaSequence)[i].bottom,
             newTop, newBottom, now)]
        && mutationCount == old(mutationCount) + 1
      ensures (0 <= pairId < |old(dnaSequence)|
        && newTop == old(dnaSequence)[pairId].top && newBottom == old(dnaSequence)[pairId].bottom) ==>
        dnaSequence == old(dnaSequence) && traits == old(traits)
    {
      match IndexOfId(dnaSequence, pairId)
      case None =>
      case Some(pairIndex) =>
        var oldPair := dnaSequence[pairIndex];
        var newSequence := dnaSequence[pairIndex := oldPair.(top := newTop, bottom := newBottom)];
        var mutation := Mutation(mutationCount, pairId, oldPair.top, oldPair.bottom, newTop, newBottom, now);
        var newTraits := CalculateTraits(newSequence);
        assert pairIndex == pairId;
        MutationKeepsConsistent(dnaSequence, mutations, traits, origin, pairId, newTop, newBottom, now);
        dnaSequence := newSequence;
        mutations := mutations + [mutation];
        traits := newTraits;
        mutationCount := mutationCount + 1;
    }

    /** `resetDNA`: a fresh complementary random sequence, an empty log, a zero counter. */
    method ResetDNA(randomIndices: seq<int>)
      requires Valid()
      requires ValidDraws(randomIndices)
      modifies this
      ensures Valid()
      ensures mutations == [] && mutationCount == 0 && origin == dnaSequence
      ensures AllComplementary(dnaSequence)
      ensures forall i :: 0 <= i < |dnaSequence| ==> dnaSequence[i].top == Bases[randomIndices[i]]
    {
      var resetSequence := CreateInitialDNA(randomIndices);
      var resetTraits := CalculateTraits(resetSequence);
      dnaSequence := resetSequence;
      mutations := [];
      traits := resetTraits;
      mutationCount := 0;
      origin := resetSequence;
    }
  }

  /** The store's invariant gives back the sequence it started from by undoing the log. */
  lemma LogRestoresOrigin(s: Store)
    requires s.Valid()
    ensures Revert(s.dnaSequence, s.mutations) == s.origin
  {
    RevertReplay(s.origin, s.mutations);
  }
}
