/**
 * The editing rules of one rung of the helix (src/components/DNABasePair.tsx):
 * the base menu that opens on either strand, and the edit that picks a new
 * base on one side, shows the cataloged effect and hands the pair to the store.
 */
module BasePairView {
  import opened Wrappers
  import opened Dna
  import opened Mutations

  /** The strand a click is on. */
  datatype Side = TopSide | BottomSide

  /** The arguments the component passes to `onMutate`. */
  datatype MutateCall = MutateCall(pairId: int, newTop: Base, newBottom: Base)

  /** The base currently on `side` of `pair`. */
  function BaseOn(pair: BasePair, side: Side): Base {
    if side == TopSide then pair.top else pair.bottom
  }

  /**
   * The pair after choosing `newBase` on `side`: the chosen side takes the new
   * base, the other side and the id stay as they were.
   */
  function EditedPair(pair: BasePair, side: Side, newBase: Base): (r: BasePair)
    ensures r.id == pair.id
    ensures BaseOn(r, side) == newBase
    ensures side == TopSide ==> r.bottom == pair.bottom
    ensures side == BottomSide ==> r.top == pair.top
  {
    BasePair(
      pair.id,
      if side == TopSide then newBase else pair.top,
      if side == BottomSide then newBase else pair.bottom)
  }

  /** Choosing the base already shown rebuilds the pair unchanged. */
  lemma ReselectIsIdentity(pair: BasePair, side: Side)
    ensures EditedPair(pair, side, BaseOn(pair, side)) == pair
  {
  }

  /**
   * The other strand is never completed: editing one side of a complementary
   * pair to a different base always leaves a non-complementary pair.
   */
  lemma EditBreaksComplement(pair: BasePair, side: Side, newBase: Base)
    requires IsComplementary(pair) && newBase != BaseOn(pair, side)
    ensures !IsComplementary(EditedPair(pair, side, newBase))
  {
  }

  /** An edit is a one-for-one replacement of a base, so it never sets back what the catalog announces for the new base. */
  lemma EditNeverSetsBackEffects(s: seq<BasePair>, i: nat, side: Side, newBase: Base)
    requires i < |s| && newBase != BaseOn(s[i], side)
    ensures NoSetback(newBase, 0, DeriveTraits(s), DeriveTraits(s[i := EditedPair(s[i], side, newBase)]))
    ensures NoSetback(newBase, 1, DeriveTraits(s), DeriveTraits(s[i := EditedPair(s[i], side, newBase)]))
  {
    ReplacementNeverSetsBack(s, i, EditedPair(s[i], side, newBase), newBase);
  }

  /**
   * `handleBaseClick`: clicking the side whose menu is open closes it; any other
   * click opens the menu on the clicked side.
   */
  function NextActive(active: Option<Side>, clicked: Side): (r: Option<Side>)
    ensures r.None? <==> active == Some(clicked)
    ensures r.Some? ==> r.value == clicked
  {
    if active == Some(clicked) then None else Some(clicked)
  }

  /** Two clicks on the same side close the menu, unless it started open on that side. */
  lemma ClickTwice(active: Option<Side>, clicked: Side)
    ensures NextActive(NextActive(active, clicked), clicked)
      == if active == Some(clicked) then Some(clicked) else None
  {
  }

  class BasePairControl {
    /** The pair the component renders. */
    const pair: BasePair
    /** Which menu is open, if any. */
    var activeBase: Option<Side>
    var showTooltip: bool
    var tooltipTitle: string
    var tooltipDescription: string

    constructor (pair: BasePair)
      ensures this.pair == pair
      ensures activeBase == None && !showTooltip
      ensures tooltipTitle == "" && tooltipDescription == ""
    {
      this.pair := pair;
      activeBase := None;
      showTooltip := false;
      tooltipTitle, tooltipDescription := "", "";
    }

    method HandleBaseClick(position: Side)
      modifies this`activeBase
      ensures activeBase == NextActive(old(activeBase), position)
    {
      activeBase := NextActive(activeBase, position);
    }

    /**
     * `handleBaseChange`: the pair with `newBase` on `position` goes to the store
     * whether or not anything changed; when the base does change, the tooltip
     * shows the first effect the catalog lists for `newBase`; the menu closes.
     */
    method HandleBaseChange(position: Side, newBase: Base) returns (call: MutateCall)
      modifies this`activeBase, this`showTooltip, this`tooltipTitle, this`tooltipDescription
      ensures var edited := EditedPair(pair, position, newBase);
        call == MutateCall(pair.id, edited.top, edited.bottom)
      ensures activeBase == None
      ensures BaseOn(pair, position) == newBase ==>
        && showTooltip == old(showTooltip)
        && tooltipTitle == old(tooltipTitle)
        && tooltipDescription == old(tooltipDescription)
      ensures BaseOn(pair, position) != newBase ==>
        && showTooltip
        && tooltipTitle == BasePairEffects(newBase)[0].name
        && tooltipDescription == BasePairEffects(newBase)[0].description
    {
      var edited := EditedPair(pair, position, newBase);
      var oldBase := BaseOn(pair, position);
      if oldBase != newBase {
        var effect := GetEffectForMutation(oldBase, newBase);
        if effect.Some? {
          tooltipTitle, tooltipDescription := effect.value.name, effect.value.description;
          showTooltip := true;
        }
      }
      call := MutateCall(pair.id, edited.top, edited.bottom);
      activeBase := None;
    }
  }
}
