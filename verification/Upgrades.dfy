/** How the upgrades of the notes databases go, one after the other until one fails. */
module Upgrades {

  datatype Upgrade = CannotOpen | CannotMigrate | Upgraded

  /** The first upgrade that fails, or their number. */
  function FirstFailure(upgrades: seq<Upgrade>): (f: nat)
    ensures f <= |upgrades| && (f < |upgrades| ==> upgrades[f] != Upgraded)
    ensures forall i :: 0 <= i < f ==> upgrades[i] == Upgraded
  {
    if upgrades == [] || upgrades[0] != Upgraded then 0 else 1 + FirstFailure(upgrades[1..])
  }

  /** The connections opened for the upgrades tried. */
  function Tried(upgrades: seq<Upgrade>): nat {
    var f := FirstFailure(upgrades);
    if f < |upgrades| && upgrades[f] == CannotMigrate then f + 1 else f
  }

  lemma {:induction false} OneMoreTried(upgrades: seq<Upgrade>, r: Upgrade)
    requires FirstFailure(upgrades) == |upgrades|
    ensures FirstFailure(upgrades + [r]) == if r == Upgraded then |upgrades| + 1 else |upgrades|
  {
    var more := upgrades + [r];
    if upgrades == [] {
      assert more[1..] == [];
    } else {
      assert more[1..] == upgrades[1..] + [r];
      OneMoreTried(upgrades[1..], r);
    }
  }
}
