/** The two spells of src/spells.js. Each works on the side opposing the
    caster and returns the visual effect the game then keeps for a while;
    sound and particles are not modelled. */
module Spells {
  import opened Entities
  import opened Sides

  /** A spell's circle on the field, kept until its `time` runs out. */
  datatype Effect = Effect(kind: string, x: real, y: real, r: real, time: real)

  /** `Math.hypot(p.x - x, p.y - y) <= radius`: point p lies in the blast at (x, y). */
  predicate InBlast(hypot: Hypot, px: real, py: real, x: real, y: real, radius: real)
  {
    Dist(hypot, px, py, x, y) <= radius
  }

  /** Between the old and the current state the units and towers of one side
      took one fireball at (x, y). */
  twostate predicate Burned(units: seq<Unit>, towers: seq<Tower>, x: real, y: real, hypot: Hypot)
    reads units, towers
  {
    && (forall u :: u in units ==>
          && u.OnlyHit()
          && if old(u.hp > 0.0 && InBlast(hypot, u.x, u.y, x, y, 60.0))
             then u.hp == old(u.hp) - 180.0 && u.hitTime == 0.2
             else unchanged(u))
    && (forall t :: t in towers ==>
          && t.OnlyHit()
          && if old(t.hp) > 0.0 && InBlast(hypot, t.x, t.y, x, y, 60.0)
             then t.hp == old(t.hp) - 120.0 && t.wasDamaged
             else unchanged(t))
  }

  /** Between the old and the current state the units and towers of one side
      took one freeze at (x, y): no hp changed, and freeze timers rose to at
      least 2.5 where the blast reached. */
  twostate predicate Chilled(units: seq<Unit>, towers: seq<Tower>, x: real, y: real, hypot: Hypot)
    reads units, towers
  {
    && (forall u :: u in units ==>
          && u.x == old(u.x) && u.y == old(u.y) && u.hp == old(u.hp)
          && u.freezeLeft == if InBlast(hypot, u.x, u.y, x, y, 80.0) then Max(old(u.freezeLeft), 2.5)
                             else old(u.freezeLeft))
    && (forall t :: t in towers ==>
          && t.hp == old(t.hp)
          && t.freezeLeft == if t.hp > 0.0 && InBlast(hypot, t.x, t.y, x, y, 80.0) then Max(old(t.freezeLeft), 2.5)
                             else old(t.freezeLeft))
  }

  /** `fireball(game, side, x, y)`: every live opposing unit in the blast
      loses 180 hp, once; every opposing tower still standing in the blast
      loses 120 hp, once; nothing else changes. */
  method Fireball(foe: Side, x: real, y: real, hypot: Hypot) returns (e: Effect)
    requires foe.Valid()
    modifies foe.AllUnits()`hp, foe.AllUnits()`hitTime, foe.Towers()`hp, foe.Towers()`wasDamaged
    ensures e == Effect("fireball", x, y, 60.0, 0.35)
    ensures Burned(foe.AllUnits(), foe.Towers(), x, y, hypot)
  {
    foe.AllUnitsDistinct();
    BurnUnits(foe.unitsTop + foe.unitsBottom, x, y, hypot);
    BurnTowers(foe.Towers(), x, y, hypot);
    e := Effect("fireball", x, y, 60.0, 0.35);
  }

  /** The unit loop of `fireball`. */
  method BurnUnits(units: seq<Unit>, x: real, y: real, hypot: Hypot)
    requires Distinct(units)
    modifies units`hp, units`hitTime
    ensures forall u :: u in units ==>
      && u.OnlyHit()
      && if old(u.hp > 0.0 && InBlast(hypot, u.x, u.y, x, y, 60.0))
         then u.hp == old(u.hp) - 180.0 && u.hitTime == 0.2
         else unchanged(u)
  {
    var i := 0;
    while i < |units|
      invariant 0 <= i <= |units|
      invariant forall j :: 0 <= j < i ==>
        && units[j].OnlyHit()
        && if old(units[j].hp > 0.0 && InBlast(hypot, units[j].x, units[j].y, x, y, 60.0))
           then units[j].hp == old(units[j].hp) - 180.0 && units[j].hitTime == 0.2
           else unchanged(units[j])
      invariant forall j :: i <= j < |units| ==> unchanged(units[j])
    {
      var u := units[i];
      if u.IsAlive() && InBlast(hypot, u.x, u.y, x, y, 60.0) {
        ApplyDamage(UnitTarget(u), 180.0);
      }
      i := i + 1;
    }
  }

  /** The tower loop of `fireball`, over the towers still standing. */
  method BurnTowers(all: seq<Tower>, x: real, y: real, hypot: Hypot)
    requires Distinct(all)
    modifies all`hp, all`wasDamaged
    ensures forall t :: t in all ==>
      && t.OnlyHit()
      && if old(t.hp) > 0.0 && InBlast(hypot, t.x, t.y, x, y, 60.0)
         then t.hp == old(t.hp) - 120.0 && t.wasDamaged
         else unchanged(t)
  {
    var towers := LiveTowers(all);
    LiveTowersExactlyStanding(all);
    LiveTowersDistinct(all);
    var k := 0;
    while k < |towers|
      invariant 0 <= k <= |towers|
      invariant forall t :: t in all ==>
        && t.OnlyHit()
        && if t in towers[..k] && InBlast(hypot, t.x, t.y, x, y, 60.0)
           then t.hp == old(t.hp) - 120.0 && t.wasDamaged
           else unchanged(t)
    {
      var t := towers[k];
      assert towers[..k + 1] == towers[..k] + [t];
      assert t !in towers[..k];
      if InBlast(hypot, t.x, t.y, x, y, 60.0) {
        ApplyDamage(TowerTarget(t), 120.0);
      }
      k := k + 1;
    }
    assert towers[..k] == towers;
  }

  /** `freeze(game, side, x, y)`: every opposing unit in the blast, dead or
      alive, and every opposing tower still standing in it, is frozen for
      at least 2.5 seconds; nothing but freeze timers changes. */
  method Freeze(foe: Side, x: real, y: real, hypot: Hypot) returns (e: Effect)
    modifies foe.AllUnits()`freezeLeft, foe.Towers()`freezeLeft
    ensures e == Effect("freeze", x, y, 80.0, 2.5)
    ensures Chilled(foe.AllUnits(), foe.Towers(), x, y, hypot)
  {
    ChillUnits(foe.unitsTop + foe.unitsBottom, x, y, hypot);
    ChillTowers(foe.Towers(), x, y, hypot);
    e := Effect("freeze", x, y, 80.0, 2.5);
  }

  /** The unit loop of `freeze`; a unit listed twice is frozen once. */
  method ChillUnits(units: seq<Unit>, x: real, y: real, hypot: Hypot)
    modifies units`freezeLeft
    ensures forall u :: u in units ==>
      u.freezeLeft == if InBlast(hypot, u.x, u.y, x, y, 80.0) then Max(old(u.freezeLeft), 2.5) else old(u.freezeLeft)
  {
    var i := 0;
    while i < |units|
      invariant 0 <= i <= |units|
      invariant forall u :: u in units ==>
        u.freezeLeft == if u in units[..i] && InBlast(hypot, u.x, u.y, x, y, 80.0)
                        then Max(old(u.freezeLeft), 2.5) else old(u.freezeLeft)
    {
      var u := units[i];
      assert units[..i + 1] == units[..i] + [u];
      if InBlast(hypot, u.x, u.y, x, y, 80.0) {
        u.freezeLeft := Max(u.freezeLeft, 2.5);
      }
      i := i + 1;
    }
    assert units[..i] == units;
  }

  /** The tower loop of `freeze`, over the towers still standing. */
  method ChillTowers(all: seq<Tower>, x: real, y: real, hypot: Hypot)
    modifies all`freezeLeft
    ensures forall t :: t in all ==>
      t.freezeLeft == if t.hp > 0.0 && InBlast(hypot, t.x, t.y, x, y, 80.0) then Max(old(t.freezeLeft), 2.5)
                      else old(t.freezeLeft)
  {
    var towers := LiveTowers(all);
    LiveTowersExactlyStanding(all);
    var k := 0;
    while k < |towers|
      invariant 0 <= k <= |towers|
      invariant forall t :: t in all ==>
        t.freezeLeft == if t in towers[..k] && InBlast(hypot, t.x, t.y, x, y, 80.0)
                        then Max(old(t.freezeLeft), 2.5) else old(t.freezeLeft)
    {
      var t := towers[k];
      assert towers[..k + 1] == towers[..k] + [t];
      if InBlast(hypot, t.x, t.y, x, y, 80.0) {
        t.freezeLeft := Max(t.freezeLeft, 2.5);
      }
      k := k + 1;
    }
    assert towers[..k] == towers;
  }
}
