/**
 * The rotation-speed control of the helix (src/components/DNAMolecule.tsx):
 * the seconds per rotation, changed in steps of 5 and clamped to [5, 40].
 */
module DnaMolecule {

  const InitialRotationSpeed: int := 20
  const MinSpeed: int := 5
  const MaxSpeed: int := 40
  const SpeedStep: int := 5

  /** The speeds the control can show: a multiple of the step within the clamp. */
  predicate ValidSpeed(speed: int) {
    MinSpeed <= speed <= MaxSpeed && speed % SpeedStep == 0
  }

  /**
   * The updater of `handleSpeedChange`: "faster" takes 5 seconds off, but not
   * below 5; "slower" adds 5 seconds, but not above 40.
   */
  function NextSpeed(prev: int, faster: bool): (r: int)
    ensures faster ==> r >= MinSpeed
    ensures !faster ==> r <= MaxSpeed
    ensures faster && prev >= MinSpeed ==> r <= prev
    ensures !faster && prev <= MaxSpeed ==> r >= prev
    ensures r == prev - SpeedStep || r == prev + SpeedStep || r == MinSpeed || r == MaxSpeed
  {
    if faster then
      (if prev - SpeedStep > MinSpeed then prev - SpeedStep else MinSpeed)
    else
      (if prev + SpeedStep < MaxSpeed then prev + SpeedStep else MaxSpeed)
  }

  /** Each step keeps the speed a valid one. */
  lemma NextSpeedValid(prev: int, faster: bool)
    requires ValidSpeed(prev)
    ensures ValidSpeed(NextSpeed(prev, faster))
  {
  }

  /** At the clamps a further step in the same direction changes nothing. */
  lemma ClampsAreFixedPoints()
    ensures NextSpeed(MinSpeed, true) == MinSpeed
    ensures NextSpeed(MaxSpeed, false) == MaxSpeed
  {
  }

  /**
   * Every step moves by exactly 5 unless that would cross its clamp, and a
   * step that would cross it stops on the clamp.
   */
  lemma StepIsExact(prev: int, faster: bool)
    ensures faster && prev - SpeedStep >= MinSpeed ==> NextSpeed(prev, faster) == prev - SpeedStep
    ensures faster && prev - SpeedStep < MinSpeed ==> NextSpeed(prev, faster) == MinSpeed
    ensures !faster && prev + SpeedStep <= MaxSpeed ==> NextSpeed(prev, faster) == prev + SpeedStep
    ensures !faster && prev + SpeedStep > MaxSpeed ==> NextSpeed(prev, faster) == MaxSpeed
  {
  }

  /** The speed after a series of button presses (`true` for "faster"). */
  function SpeedAfter(start: int, presses: seq<bool>): int {
    if presses == [] then start else NextSpeed(SpeedAfter(start, presses[..|presses| - 1]), presses[|presses| - 1])
  }

  /** Whatever the presses, starting from a valid speed the speed stays valid. */
  lemma {:induction false} SpeedAlwaysValid(start: int, presses: seq<bool>)
    requires ValidSpeed(start)
    ensures ValidSpeed(SpeedAfter(start, presses))
  {
    if presses != [] {
      SpeedAlwaysValid(start, presses[..|presses| - 1]);
      NextSpeedValid(SpeedAfter(start, presses[..|presses| - 1]), presses[|presses| - 1]);
    }
  }

  /** From the initial 20 seconds, every reachable speed is a multiple of 5 in [5, 40]. */
  lemma ReachableSpeeds(presses: seq<bool>)
    ensures ValidSpeed(SpeedAfter(InitialRotationSpeed, presses))
  {
    SpeedAlwaysValid(InitialRotationSpeed, presses);
  }

  class RotationControl {
    /** Seconds per full rotation of the helix. */
    var rotationSpeed: int

    ghost predicate Valid()
      reads this
    {
      ValidSpeed(rotationSpeed)
    }

    constructor ()
      ensures Valid()
      ensures rotationSpeed == InitialRotationSpeed
    {
      rotationSpeed := InitialRotationSpeed;
    }

    /** `handleSpeedChange`. */
    method HandleSpeedChange(faster: bool)
      requires Valid()
      modifies this
      ensures Valid()
      ensures rotationSpeed == NextSpeed(old(rotationSpeed), faster)
    {
      NextSpeedValid(rotationSpeed, faster);
      rotationSpeed := NextSpeed(rotationSpeed, faster);
    }
  }
}
