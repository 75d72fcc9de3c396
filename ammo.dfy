/** The magazine: firing spends one round when any is left, reloading refills it. */
module Ammo {

  /** Rounds in a full magazine. */
  const MaxAmmo: int := 30

  /** The player's two actions on the magazine. */
  datatype AmmoAction = Fire | Refill

  /** The rounds left after action a with ammo rounds loaded. */
  function AmmoAfter(ammo: int, a: AmmoAction): (r: int)
    ensures 0 <= ammo <= MaxAmmo ==> 0 <= r <= MaxAmmo
  {
    match a
    case Fire => if ammo <= 0 then ammo else ammo - 1
    case Refill => if ammo < MaxAmmo then MaxAmmo else ammo
  }

  /** The rounds left after the actions in order. */
  function AmmoAfterAll(ammo: int, actions: seq<AmmoAction>): int
    decreases |actions|
  {
    if actions == [] then ammo else AmmoAfterAll(AmmoAfter(ammo, actions[0]), actions[1..])
  }

  /** From any legal magazine, any sequence of shots and reloads keeps the rounds within [0, MaxAmmo]. */
  lemma {:induction false} AmmoStaysInRange(ammo: int, actions: seq<AmmoAction>)
    requires 0 <= ammo <= MaxAmmo
    ensures 0 <= AmmoAfterAll(ammo, actions) <= MaxAmmo
    decreases |actions|
  {
    if actions != [] {
      AmmoStaysInRange(AmmoAfter(ammo, actions[0]), actions[1..]);
    }
  }

  /** Reloading a second time changes nothing. */
  lemma RefillIdempotent(ammo: int)
    ensures AmmoAfter(AmmoAfter(ammo, Refill), Refill) == AmmoAfter(ammo, Refill)
  {
  }

  /** Firing n times with ammo rounds loaded leaves ammo - n rounds while n <= ammo, and 0 once they are spent. */
  lemma {:induction false} FiringDrains(ammo: int, n: nat)
    requires 0 <= ammo
    ensures AmmoAfterAll(ammo, seq(n, _ => Fire)) == if n <= ammo then ammo - n else 0
    decreases n
  {
    if n > 0 {
      assert seq(n, _ => Fire)[1..] == seq(n - 1, _ => Fire);
      FiringDrains(AmmoAfter(ammo, Fire), n - 1);
    }
  }
}
