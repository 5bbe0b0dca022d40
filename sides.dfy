/** The record each side of a battle keeps (the `player` and `enemy`
    objects built by the `Game` constructor in src/game.js). */
module Sides {
  import opened Wrappers
  import opened Entities

  class Side {
    var elixir: real
    const elixirRate: real := 0.45
    const king: Tower
    const topTower: Tower
    const bottomTower: Tower
    var unitsTop: seq<Unit>
    var unitsBottom: seq<Unit>

    /** A side whose king stands at `kingX` and whose lane towers stand at
        `flankX`, on a field `height` tall; the king starts dormant. */
    constructor (kingX: real, flankX: real, height: real, side: int)
      ensures elixir == 5.0 && unitsTop == [] && unitsBottom == []
      ensures fresh(king) && fresh(topTower) && fresh(bottomTower)
      ensures king != topTower && king != bottomTower && topTower != bottomTower
      ensures king.x == kingX && king.y == height / 2.0 && king.side == side
      ensures king.hp == 2400.0 && king.maxHp == 2400.0 && king.damage == 35.0 && king.range == 170.0
      ensures !king.active && !king.wasDamaged && king.awakeBoostLeft == 0.0
      ensures topTower.x == flankX && topTower.y == height * 0.25 && topTower.side == side
      ensures bottomTower.x == flankX && bottomTower.y == height * 0.75 && bottomTower.side == side
      ensures topTower.hp == 1400.0 && topTower.damage == 25.0 && topTower.range == 150.0 && topTower.active
      ensures bottomTower.hp == 1400.0 && bottomTower.damage == 25.0 && bottomTower.range == 150.0
      ensures bottomTower.active
      ensures Mustered(kingX, flankX, height)
      ensures Valid()
    {
      elixir := 5.0;
      king := new Tower(kingX, height / 2.0, side,
                        TowerSpec(None, None, Some(2400.0), Some(170.0), Some(35.0), None, Some(false)));
      topTower := new Tower(flankX, height * 0.25, side,
                            TowerSpec(None, None, Some(1400.0), Some(150.0), Some(25.0), None, None));
      bottomTower := new Tower(flankX, height * 0.75, side,
                               TowerSpec(None, None, Some(1400.0), Some(150.0), Some(25.0), None, None));
      unitsTop := [];
      unitsBottom := [];
    }

    /** The towers as a new side fields them: a dormant king of 2400 hp at
        `kingX` on the middle line, and two active lane towers of 1400 hp
        at `flankX`, a quarter and three quarters down a field `height` tall. */
    predicate Mustered(kingX: real, flankX: real, height: real)
      reads king, topTower, bottomTower
    {
      && king.x == kingX && king.y == height / 2.0
      && king.hp == 2400.0 && king.maxHp == 2400.0 && king.damage == 35.0 && king.range == 170.0
      && !king.active
      && topTower.x == flankX && topTower.y == height * 0.25
      && topTower.hp == 1400.0 && topTower.damage == 25.0 && topTower.range == 150.0 && topTower.active
      && bottomTower.x == flankX && bottomTower.y == height * 0.75
      && bottomTower.hp == 1400.0 && bottomTower.damage == 25.0 && bottomTower.range == 150.0
      && bottomTower.active
    }

    /** Both lanes' units, top lane first. */
    function AllUnits(): seq<Unit>
      reads this`unitsTop, this`unitsBottom
    {
      unitsTop + unitsBottom
    }

    /** The three towers, king first (the order the spells visit them in). */
    function Towers(): seq<Tower>
    {
      [king, topTower, bottomTower]
    }

    /** Every unit is in at most one lane, at most once; the towers are three. */
    predicate Valid()
      reads this`unitsTop, this`unitsBottom
    {
      && Distinct(unitsTop) && Distinct(unitsBottom) && Disjoint(unitsTop, unitsBottom)
      && king != topTower && king != bottomTower && topTower != bottomTower
    }

    /** None of this side's towers is one of `other`'s. */
    predicate Apart(other: Side) {
      && king != other.king && king != other.topTower && king != other.bottomTower
      && topTower != other.king && topTower != other.topTower && topTower != other.bottomTower
      && bottomTower != other.king && bottomTower != other.topTower && bottomTower != other.bottomTower
    }

    /** The `push` of a new unit onto the top lane (`top`) or the bottom lane. */
    method Enlist(u: Unit, top: bool)
      requires Valid() && u !in AllUnits()
      modifies this`unitsTop, this`unitsBottom
      ensures Valid()
      ensures top ==> unitsTop == old(unitsTop) + [u] && unitsBottom == old(unitsBottom)
      ensures !top ==> unitsBottom == old(unitsBottom) + [u] && unitsTop == old(unitsTop)
    {
      if top {
        unitsTop := unitsTop + [u];
      } else {
        unitsBottom := unitsBottom + [u];
      }
    }

    lemma AllUnitsDistinct()
      requires Valid()
      ensures Distinct(AllUnits()) && Distinct(Towers())
    {
      DistinctConcat(unitsTop, unitsBottom);
    }
  }
}
