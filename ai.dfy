/** The computer opponent of src/ai.js: every few seconds it picks a card
    for side 1 and either casts it as a spell on the crowd of player units
    or deploys it on a lane. The random draws of the source are parameters,
    one per draw site, each in [0, 1). */
module Opponent {
  import opened Wrappers
  import opened Entities
  import opened Sides
  import opened Battle

  /** A point of the field (the `{ x, y }` a spell is aimed at). */
  datatype Point = Point(x: real, y: real)

  /** The draws `pickCard` may make: the three counter-pick coin flips and
      the index into the default options. */
  datatype Draws = Draws(tank: real, swarm: real, archer: real, pick: real)
  {
    predicate Valid()
    {
      0.0 <= tank < 1.0 && 0.0 <= swarm < 1.0 && 0.0 <= archer < 1.0 && 0.0 <= pick < 1.0
    }
  }

  /** What the controller hands to the game in a tick in which it acts. */
  datatype Order = Cast(card: string, at: Point, cost: real) | Deploy(lane: string, card: string)

  /** The spell keys of the default picking. */
  const SpellKeys: set<string> := {"fireball", "freeze"}

  /** `Math.floor(r * n)` for a draw r in [0, 1): an index into n options. */
  function Index(r: real, n: nat): (i: nat)
    requires 0.0 <= r < 1.0 && n > 0
    ensures i < n
  {
    assert r * (n as real) < n as real by {
      assert (1.0 - r) * (n as real) > 0.0;
    }
    (r * (n as real)).Floor
  }

  /** The sum of the x coordinates of `us`. */
  function SumX(us: seq<Unit>): real
    reads us
  {
    if us == [] then 0.0 else SumX(us[..|us| - 1]) + us[|us| - 1].x
  }

  /** The sum of the y coordinates of `us`. */
  function SumY(us: seq<Unit>): real
    reads us
  {
    if us == [] then 0.0 else SumY(us[..|us| - 1]) + us[|us| - 1].y
  }

  /** The lane `pickSpellTarget` aims at: the player's top lane unless the
      bottom lane holds strictly more units. */
  function SpellLane(player: Side): (lane: seq<Unit>)
    reads player
    ensures lane == player.unitsTop || lane == player.unitsBottom
    ensures |lane| == Max2(|player.unitsTop|, |player.unitsBottom|)
    ensures |player.unitsTop| == |player.unitsBottom| ==> lane == player.unitsTop
  {
    if |player.unitsTop| >= |player.unitsBottom| then player.unitsTop else player.unitsBottom
  }

  /** The mean position of the units of a non-empty lane. */
  function Centroid(lane: seq<Unit>): Point
    requires |lane| > 0
    reads lane
  {
    Point(SumX(lane) / (|lane| as real), SumY(lane) / (|lane| as real))
  }

  function Max2(a: int, b: int): int
  {
    if a >= b then a else b
  }

  class AIController {
    var timer: real
    const interval: real
    const choice: seq<string>
    const spellCost: map<string, real>

    /** `new AIController()`: the timer starts run out, so the first tick acts. */
    constructor ()
      ensures timer == 0.0 && interval == 2.5
      ensures choice == ["knight", "archer", "tank", "bomber", "fireball", "freeze"]
      ensures spellCost == map["fireball" := 4.0, "freeze" := 3.0]
    {
      timer := 0.0;
      interval := 2.5;
      choice := ["knight", "archer", "tank", "bomber", "fireball", "freeze"];
      spellCost := map["fireball" := 4.0, "freeze" := 3.0];
    }

    predicate Valid()
    {
      && choice == ["knight", "archer", "tank", "bomber", "fireball", "freeze"]
      && spellCost == map["fireball" := 4.0, "freeze" := 3.0]
    }

    /** What a card of `choice` costs: the unit catalogue's price for a
        unit, `spellCost` for a spell. */
    function Cost(k: string): real
      requires Valid() && k in choice
    {
      if k in UnitKeys then UnitSpecOf(k).cost else spellCost[k]
    }

    /** The unit cards of `keys` the opponent can pay for. */
    function UnitOptions(keys: seq<string>, elixir: real): (r: seq<string>)
      ensures forall k :: k in r <==> k in keys && k in UnitKeys && UnitSpecOf(k).cost <= elixir
    {
      if keys == [] then []
      else
        (if keys[0] in UnitKeys && UnitSpecOf(keys[0]).cost <= elixir then [keys[0]] else [])
        + UnitOptions(keys[1..], elixir)
    }

    /** The spell cards of `keys` the opponent can pay for, offered only
        against at least two player units. */
    function SpellOptions(keys: seq<string>, elixir: real, foes: nat): (r: seq<string>)
      requires Valid()
      ensures forall k :: k in r <==> k in keys && k in SpellKeys && spellCost[k] <= elixir && foes >= 2
    {
      if keys == [] then []
      else
        (if keys[0] in SpellKeys && spellCost[keys[0]] <= elixir && foes >= 2 then [keys[0]] else [])
        + SpellOptions(keys[1..], elixir, foes)
    }

    /** The three counter-picks of `pickCard`, tried in order: a bomber (or
        a freeze) against a tank, a fireball against a swarm, a knight
        against an archer. */
    function CounterPick(elixir: real, foes: seq<Unit>, d: Draws): (c: Option<string>)
      requires Valid()
      ensures c.Some? ==> c.value in choice && Cost(c.value) <= elixir
      ensures c == Some("bomber") || c == Some("freeze") ==> exists u :: u in foes && u.maxHp >= 900.0
      ensures c == Some("fireball") ==> |foes| >= 3 && elixir >= 4.0
      ensures c == Some("knight") ==> exists u :: u in foes && u.range > 100.0
    {
      var hasTank := exists u :: u in foes && u.maxHp >= 900.0;
      var hasSwarm := |foes| >= 3;
      var hasArcher := exists u :: u in foes && u.range > 100.0;
      if hasTank && elixir >= 4.0 && d.tank < 0.7 && "bomber" in choice then Some("bomber")
      else if hasTank && elixir >= 4.0 && d.tank < 0.7 && "freeze" in choice && elixir >= 3.0 then Some("freeze")
      else if hasSwarm && elixir >= 4.0 && d.swarm < 0.6 && "fireball" in choice then Some("fireball")
      else if hasArcher && elixir >= 3.0 && d.archer < 0.5 && "knight" in choice then Some("knight")
      else None
    }

    /** The default picking of `pickCard`: a tank when elixir is high,
        otherwise a draw among the affordable cards. */
    function DefaultPick(elixir: real, foes: nat, pick: real): (c: Option<string>)
      requires Valid() && 0.0 <= pick < 1.0
      ensures c.Some? ==> c.value in choice && Cost(c.value) <= elixir
      ensures c.None? <==> elixir < 3.0
      ensures elixir >= 8.0 ==> c == Some("tank")
      ensures c.Some? && c.value in SpellKeys ==> foes >= 2
    {
      var unitOpts := UnitOptions(choice, elixir);
      var opts := unitOpts + SpellOptions(choice, elixir, foes);
      if opts == [] then None
      else if elixir >= 8.0 && "tank" in unitOpts then Some("tank")
      else Some(opts[Index(pick, |opts|)])
    }

    /** `pickCard(game)` with elixir `elixir` and the player's units `foes`:
        the card picked is always one the opponent holds and can pay for,
        nothing is picked below 3 elixir, a tank is picked at 8 or more
        unless a counter-pick fires, and a spell is offered by the default
        picking only against two or more player units. */
    function PickCard(elixir: real, foes: seq<Unit>, d: Draws): (c: Option<string>)
      requires Valid() && d.Valid()
      ensures c.Some? ==> c.value in choice && Cost(c.value) <= elixir
      ensures elixir < 3.0 ==> c.None?
      ensures CounterPick(elixir, foes, d).None? && elixir >= 8.0 ==> c == Some("tank")
      ensures CounterPick(elixir, foes, d).None? && c.Some? && c.value in SpellKeys ==> |foes| >= 2
      ensures CounterPick(elixir, foes, d).Some? ==> c == CounterPick(elixir, foes, d)
    {
      var counter := CounterPick(elixir, foes, d);
      if counter.Some? then counter else DefaultPick(elixir, |foes|, d.pick)
    }

    /** `pickLane(game)`: the lane of the weaker player flank tower. With
        exactly one flank standing it is that flank's lane; with both
        standing and more than 200 hp apart, the lane of the weaker one;
        otherwise the lane where the opponent's head count, less the
        player's, is lower (bottom on a tie). */
    function PickLane(game: Game): (lane: string)
      reads game.player, game.enemy, game.player.topTower, game.player.bottomTower
      ensures lane == "top" || lane == "bottom"
      ensures var top, bottom := game.player.topTower.hp, game.player.bottomTower.hp;
        (top <= 0.0 && bottom > 0.0 ==> lane == "bottom") && (bottom <= 0.0 && top > 0.0 ==> lane == "top")
      ensures var top, bottom := game.player.topTower.hp, game.player.bottomTower.hp;
        top > 0.0 && bottom > 0.0 && (top - bottom > 200.0 || bottom - top > 200.0) ==>
          (lane == "top" <==> top < bottom)
      ensures var top, bottom := game.player.topTower.hp, game.player.bottomTower.hp;
        (top <= 0.0 && bottom <= 0.0) || (top > 0.0 && bottom > 0.0 && -200.0 <= top - bottom <= 200.0) ==>
          (lane == "top" <==> |game.enemy.unitsTop| - |game.player.unitsTop|
                                < |game.enemy.unitsBottom| - |game.player.unitsBottom|)
    {
      var top := game.player.topTower.hp;
      var bottom := game.player.bottomTower.hp;
      if top > 0.0 && bottom > 0.0 && top < bottom - 200.0 then "top"
      else if top > 0.0 && bottom > 0.0 && bottom < top - 200.0 then "bottom"
      else if top <= 0.0 && bottom > 0.0 then "bottom"
      else if bottom <= 0.0 && top > 0.0 then "top"
      else
        var topPressure := |game.enemy.unitsTop| - |game.player.unitsTop|;
        var botPressure := |game.enemy.unitsBottom| - |game.player.unitsBottom|;
        if topPressure < botPressure then "top" else "bottom"
    }

    /** `pickSpellTarget(game)`: no target when the player has no unit;
        otherwise the centroid of the player's fuller lane, top on a tie. */
    method PickSpellTarget(player: Side) returns (p: Option<Point>)
      ensures p.None? <==> player.unitsTop == [] && player.unitsBottom == []
      ensures p.Some? ==> |SpellLane(player)| > 0 && p.value == Centroid(SpellLane(player))
    {
      var pts := |player.unitsTop| + |player.unitsBottom|;
      if pts == 0 {
        return None;
      }
      var arr := if |player.unitsTop| >= |player.unitsBottom| then player.unitsTop else player.unitsBottom;
      var sx, sy, n := 0.0, 0.0, 0;
      while n < |arr|
        invariant 0 <= n <= |arr|
        invariant sx == SumX(arr[..n]) && sy == SumY(arr[..n])
      {
        assert arr[..n + 1][..n] == arr[..n];
        sx := sx + arr[n].x;
        sy := sy + arr[n].y;
        n := n + 1;
      }
      assert arr[..n] == arr;
      // the fuller lane of a non-empty pair is non-empty, so the source's
      // `n === 0` guard never fires here
      assert n > 0;
      p := Some(Point(sx / (n as real), sy / (n as real)));
    }

    /** `update(dt, game)`: nothing once the game is over; otherwise the
        timer runs down by `dt`, and when it has run out it restarts at
        2 + 2 * `reset` seconds (so within [2, 4)) and the opponent picks
        a card. A spell goes, at its price, to the target `pickSpellTarget`
        finds, and is dropped when there is none; a unit goes to the lane
        `pickLane` chooses. The order is returned and handed to
        `Battle.Game.CastSpell(1, ...)` or `Battle.Game.SpawnUnit(1, ...)`. */
    method Update(dt: real, game: Game, reset: real, d: Draws) returns (order: Option<Order>)
      requires Valid() && 0.0 <= reset < 1.0 && d.Valid()
      modifies this`timer
      ensures game.over ==> timer == old(timer) && order.None?
      ensures !game.over && old(timer) - dt > 0.0 ==> timer == old(timer) - dt && order.None?
      ensures !game.over && old(timer) - dt <= 0.0 ==> timer == 2.0 + reset * 2.0 && 2.0 <= timer < 4.0
      ensures order.Some? ==>
        var card := PickCard(game.enemy.elixir, game.player.unitsTop + game.player.unitsBottom, d);
        card.Some? && !game.over && old(timer) - dt <= 0.0 &&
        if card.value in SpellKeys
        then && (game.player.unitsTop != [] || game.player.unitsBottom != [])
             && order.value == Cast(card.value, Centroid(SpellLane(game.player)), spellCost[card.value])
        else order.value == Deploy(PickLane(game), card.value)
      ensures !game.over && old(timer) - dt <= 0.0 && order.None? ==>
        var card := PickCard(game.enemy.elixir, game.player.unitsTop + game.player.unitsBottom, d);
        card.None? || (card.value in SpellKeys && game.player.unitsTop == [] && game.player.unitsBottom == [])
    {
      order := None;
      if game.over { return; }
      timer := timer - dt;
      if timer <= 0.0 {
        timer := 2.0 + reset * 2.0;
        var card := PickCard(game.enemy.elixir, game.player.unitsTop + game.player.unitsBottom, d);
        if card.None? { return; }
        if card.value == "fireball" || card.value == "freeze" {
          var target := PickSpellTarget(game.player);
          if target.None? { return; }
          order := Some(Cast(card.value, target.value, spellCost[card.value]));
        } else {
          order := Some(Deploy(PickLane(game), card.value));
        }
      }
    }
  }
}
