/** The battle simulation of src/game.js: a `Game` holds both sides and the
    live spell effects and advances them one tick at a time. Drawing, sound,
    sprites and particles are not modelled. */
module Battle {
  import opened Wrappers
  import opened Entities
  import opened Sides
  import opened Spells

  // ---------------------------------------------------------------------------
  // Helpers of the tick

  /** `Math.min(10, elixir + rate * dt)`: elixir regenerates and is capped at 10. */
  function Regen(elixir: real, rate: real, dt: real): (r: real)
    ensures r <= 10.0
    ensures elixir >= 0.0 && rate >= 0.0 && dt >= 0.0 ==> r >= 0.0
    ensures elixir + rate * dt <= 10.0 ==> r == elixir + rate * dt
    ensures elixir >= 10.0 && rate >= 0.0 && dt >= 0.0 ==> r == 10.0
  {
    Min(10.0, elixir + rate * dt)
  }

  /** `Math.max(lo, Math.min(hi, v))`. */
  function Clamp(lo: real, hi: real, v: real): (r: real)
    ensures lo <= r
    ensures lo <= hi ==> r <= hi
    ensures lo <= v <= hi ==> r == v
  {
    Max(lo, Min(hi, v))
  }

  /** Where the boundary pass leaves a unit: at least 140 from the left edge,
      at most 140 from the right edge of a field wide enough for both, and
      within 26 of its lane centre. */
  predicate InBounds(u: Unit, w: real)
    reads u`x, u`y, u`targetY
  {
    && 140.0 <= u.x && (w >= 280.0 ==> u.x <= w - 140.0)
    && u.targetY - 26.0 <= u.y <= u.targetY + 26.0
  }

  /** Every unit of a lane is in bounds. */
  predicate Bounded(s: seq<Unit>, w: real)
    reads s
  {
    forall u :: u in s ==> InBounds(u, w)
  }

  /** Every unit of a lane is alive and in bounds. */
  predicate Fielded(s: seq<Unit>, w: real)
    reads s
  {
    forall i :: 0 <= i < |s| ==> s[i].hp > 0.0 && InBounds(s[i], w)
  }

  /** `updateLane(us, foes, foeTower, dir, dt)`: every unit of `us`, in
      order, takes its tick against `foes` and `foeTower`. The foes and the
      tower are only hit (the frame says so); no unit of `us` is. Each unit
      moves and counts down as `Stepped` says for the state it started the
      tick in, whatever the order: a unit's step depends on the others
      only through whom it fights, and that decides only its push and
      whether it restarts its cooldown. */
  method UpdateLane(us: seq<Unit>, foes: seq<Unit>, foeTower: Tower, dir: real, dt: real, hypot: Hypot)
    requires Distinct(us) && Disjoint(us, foes)
    modifies us, foes`hp, foes`hitTime, foeTower`hp, foeTower`wasDamaged
    ensures forall u :: u in us ==> u.hp == old(u.hp) && u.targetY == old(u.targetY)
    ensures forall u :: u in us ==> u.Stepped(old(u.CurrentMotion()), u.CurrentMotion(), old(u.hp) > 0.0, dt, dir)
    ensures forall u :: u in us ==>
      u.hitTime == if old(u.hp > 0.0 && u.freezeLeft <= 0.0) then Countdown(old(u.hitTime), dt) else old(u.hitTime)
  {
    var i := 0;
    while i < |us|
      invariant 0 <= i <= |us|
      invariant forall u :: u in us ==> u.hp == old(u.hp) && u.targetY == old(u.targetY)
      invariant forall j :: 0 <= j < i ==>
        us[j].Stepped(old(us[j].CurrentMotion()), us[j].CurrentMotion(), old(us[j].hp) > 0.0, dt, dir)
      invariant forall j :: 0 <= j < i ==>
        us[j].hitTime == if old(us[j].hp > 0.0 && us[j].freezeLeft <= 0.0) then Countdown(old(us[j].hitTime), dt)
                         else old(us[j].hitTime)
      invariant forall j :: i <= j < |us| ==>
        us[j].CurrentMotion() == old(us[j].CurrentMotion()) && us[j].hitTime == old(us[j].hitTime)
    {
      label before:
      us[i].Update(dt, foes, foeTower, dir, hypot);
      forall j | 0 <= j < |us| && j != i
        ensures us[j].CurrentMotion() == old@before(us[j].CurrentMotion())
        ensures us[j].hitTime == old@before(us[j].hitTime)
      {
        assert us[j] != us[i] && us[j] !in foes;
      }
      i := i + 1;
    }
    assert forall u :: u in us ==> exists j :: 0 <= j < |us| && us[j] == u;
  }

  // ---------------------------------------------------------------------------
  // Physics

  /** One pair of the same side (first pass of `resolvePhysicsLane`): when
      they overlap, they are pushed apart in proportion to the overlap, the
      one behind is slowed, and a pair at nearly the same x is pushed apart
      vertically. Positions do not change. */
  method SeparatePair(a: Unit, b: Unit, dir: real, hypot: Hypot)
    modifies a`vx, a`vy, b`vx, b`vy
    ensures hypot(old(a.x - b.x), old(a.y - b.y)) >= a.r + b.r + 4.0 ==> unchanged(a, b)
  {
    var dx := a.x - b.x;
    var dy := a.y - b.y;
    var d := hypot(dx, dy);
    var min := a.r + b.r + 4.0;
    if d < min && d > 0.001 {
      var nx, ny := dx / d, dy / d;
      var f := 6.0 * (min - d);
      var isABehind := if dir > 0.0 then a.x < b.x else a.x > b.x;
      var follower := if isABehind then a else b;
      if Abs(dx) < min * 0.8 {
        follower.vx := follower.vx * 0.85;
      }
      var fa, fb := f / a.mass, f / b.mass;
      a.vx := a.vx + nx * fa;
      a.vy := a.vy + ny * fa;
      b.vx := b.vx - nx * fb;
      b.vy := b.vy - ny * fb;
      if Abs(dx) < 10.0 {
        if a.y < b.y {
          a.vy := a.vy - 0.5;
          b.vy := b.vy + 0.5;
        } else {
          a.vy := a.vy + 0.5;
          b.vy := b.vy - 0.5;
        }
      }
    }
  }

  /** One unit against one foe (second pass of `resolvePhysicsLane`):
      overlapping opponents push each other apart, at 0.6 of the strength. */
  method RepelPair(a: Unit, b: Unit, hypot: Hypot)
    modifies a`vx, a`vy, b`vx, b`vy
    ensures hypot(old(a.x - b.x), old(a.y - b.y)) >= a.r + b.r + 4.0 ==> unchanged(a, b)
  {
    var dx := a.x - b.x;
    var dy := a.y - b.y;
    var d := hypot(dx, dy);
    var min := a.r + b.r + 4.0;
    if d < min && d > 0.001 {
      var f := 6.0 * (min - d) * 0.6;
      var nx, ny := dx / d, dy / d;
      var fa, fb := f / a.mass, f / b.mass;
      a.vx := a.vx + nx * fa;
      a.vy := a.vy + ny * fa;
      b.vx := b.vx - nx * fb;
      b.vy := b.vy - ny * fb;
    }
  }

  /** The boundary pass for one unit: bounce off the field's side margins
      and the lane's edges, spring towards the lane centre, then clamp the
      position into bounds. */
  method Constrain(a: Unit, w: real)
    modifies a`vx, a`vy, a`x, a`y
    ensures InBounds(a, w)
    ensures old(140.0 <= a.x <= w - 140.0) ==> a.x == old(a.x)
    ensures old(a.targetY - 26.0 <= a.y <= a.targetY + 26.0) ==> a.y == old(a.y)
  {
    if a.x < 140.0 && a.vx < 0.0 { a.vx := a.vx * -0.3; }
    if a.x > w - 140.0 && a.vx > 0.0 { a.vx := a.vx * -0.3; }
    var laneY := a.targetY;
    var dy := a.y - laneY;
    a.vy := a.vy - dy * 0.05;
    if a.y < laneY - 24.0 && a.vy < 0.0 { a.vy := a.vy * -0.3; }
    if a.y > laneY + 24.0 && a.vy > 0.0 { a.vy := a.vy * -0.3; }
    a.x := Clamp(140.0, w - 140.0, a.x);
    a.y := Clamp(laneY - 26.0, laneY + 26.0, a.y);
  }

  /** `resolvePhysicsLane(us, foes, dir, w)`: collisions within `us`, then
      against `foes`, then the boundary pass over `us`. Foes only change
      velocity (the frame says so); afterwards every unit of `us` is in bounds. */
  method ResolvePhysicsLane(us: seq<Unit>, foes: seq<Unit>, dir: real, w: real, hypot: Hypot)
    modifies us`vx, us`vy, us`x, us`y, foes`vx, foes`vy
    ensures forall u :: u in us ==> InBounds(u, w)
  {
    // the two collision passes carry no contract beyond their frame: the
    // impulses they apply are not stated (see SeparatePair and RepelPair)
    var i := 0;
    while i < |us|
      invariant 0 <= i <= |us|
    {
      var j := i + 1;
      while j < |us|
        invariant i + 1 <= j <= |us|
      {
        SeparatePair(us[i], us[j], dir, hypot);
        j := j + 1;
      }
      i := i + 1;
    }
    i := 0;
    while i < |us|
      invariant 0 <= i <= |us|
    {
      var j := 0;
      while j < |foes|
        invariant 0 <= j <= |foes|
      {
        RepelPair(us[i], foes[j], hypot);
        j := j + 1;
      }
      i := i + 1;
    }
    i := 0;
    while i < |us|
      invariant 0 <= i <= |us|
      invariant forall k :: 0 <= k < i ==> InBounds(us[k], w)
    {
      Constrain(us[i], w);
      i := i + 1;
    }
  }

  // ---------------------------------------------------------------------------
  // King wake, cleanup and effects

  /** The wake condition of a side's king: both lane towers are down, or the
      king itself has been hit. */
  predicate WakeDue(me: Side)
    reads me.king`wasDamaged, me.topTower`hp, me.bottomTower`hp
  {
    (me.topTower.hp <= 0.0 && me.bottomTower.hp <= 0.0) || me.king.wasDamaged
  }

  /** Tower `t` took its tick against `cands` as `Next` says, a candidate
      being found when one was in range at the start, and hit exactly its
      `Victim` among them for its new damage. */
  twostate predicate Shot(t: Tower, cands: seq<Unit>, dt: real, hypot: Hypot)
    reads t, cands`x, cands`y, cands`hp, cands`hitTime
  {
    var near := old(NearestIndex(hypot, t.x, t.y, cands, t.range));
    && t.State() == t.Next(old(t.State()), dt, near.Some?)
    && Hit(cands, t.Victim(old(t.State()), dt, near), t.damage)
  }

  /** `t.update(dt, cands)`, for a tower in state `s0` whose nearest
      candidate in range is `near`: its new state is `Next` of `s0`, and
      its shot hits exactly `Victim` for the new damage. */
  method FireFrom(t: Tower, cands: seq<Unit>, dt: real, hypot: Hypot, ghost s0: TowerState, ghost near: Option<nat>)
    requires t.State() == s0 && near == NearestIndex(hypot, t.x, t.y, cands, t.range)
    modifies t`awakeBoostLeft, t`damage, t`cooldown, t`freezeLeft, t`cooldownLeft, cands`hp, cands`hitTime
    ensures t.State() == t.Next(s0, dt, near.Some?)
    ensures Hit(cands, t.Victim(s0, dt, near), t.Next(s0, dt, near.Some?).damage)
  {
    t.Update(dt, cands, hypot);
  }

  /** Two tower updates in turn, `t1` against `c1`, then `t2` against
      `c2`, on distinct towers and candidate lists that share no unit.
      Each tower fires as `Next` says for the state it started in and
      hits exactly its `Victim`: towers move no unit, so which candidate
      is nearest does not depend on the order, and neither update touches
      the other's tower or candidates. */
  method FirePair(t1: Tower, c1: seq<Unit>, t2: Tower, c2: seq<Unit>, dt: real, hypot: Hypot)
    requires t1 != t2 && Disjoint(c1, c2)
    modifies t1`awakeBoostLeft, t1`damage, t1`cooldown, t1`freezeLeft, t1`cooldownLeft, c1`hp, c1`hitTime
    modifies t2`awakeBoostLeft, t2`damage, t2`cooldown, t2`freezeLeft, t2`cooldownLeft, c2`hp, c2`hitTime
    ensures Shot(t1, c1, dt, hypot) && Shot(t2, c2, dt, hypot)
  {
    ghost var n1 := NearestIndex(hypot, t1.x, t1.y, c1, t1.range);
    ghost var n2 := NearestIndex(hypot, t2.x, t2.y, c2, t2.range);
    ghost var s1, s2 := t1.State(), t2.State();
    FireFrom(t1, c1, dt, hypot, s1, n1);
    label first:
    FireFrom(t2, c2, dt, hypot, s2, n2);
    assert forall u :: u in c1 ==> u.hp == old@first(u.hp) && u.hitTime == old@first(u.hitTime);
  }

  /** The two king updates of a tick, each king against both opposing
      lanes, top lane first, the two sides' lanes sharing no unit;
      afterwards each has fired as `Next` says and hit exactly its
      `Victim`. */
  method FireKings(pk: Tower, ek: Tower, pu: seq<Unit>, pl: seq<Unit>, eu: seq<Unit>, el: seq<Unit>,
                   dt: real, hypot: Hypot)
    requires pk != ek && Disjoint(pu + pl, eu + el)
    modifies pk`awakeBoostLeft, pk`damage, pk`cooldown, pk`freezeLeft, pk`cooldownLeft
    modifies ek`awakeBoostLeft, ek`damage, ek`cooldown, ek`freezeLeft, ek`cooldownLeft
    modifies pu`hp, pu`hitTime, pl`hp, pl`hitTime, eu`hp, eu`hitTime, el`hp, el`hitTime
    ensures Shot(pk, eu + el, dt, hypot) && Shot(ek, pu + pl, dt, hypot)
  {
    assert forall u :: u in eu + el ==> u in eu || u in el;
    assert forall u :: u in pu + pl ==> u in pu || u in pl;
    FirePair(pk, eu + el, ek, pu + pl, dt, hypot);
  }

  /** `handleKingWake(me, foe)`: a standing, dormant king whose wake
      condition holds becomes active with at least a 10-second boost. A
      king is never put back to sleep. */
  method HandleKingWake(me: Side)
    modifies me.king`active, me.king`awakeBoostLeft, me.king`awakeDuration
    ensures old(me.king.hp <= 0.0 || me.king.active || !WakeDue(me)) ==> unchanged(me.king)
    ensures old(me.king.hp > 0.0 && !me.king.active && WakeDue(me)) ==>
      && me.king.active
      && me.king.awakeBoostLeft == Max(old(me.king.awakeBoostLeft), 10.0)
      && me.king.awakeDuration == 10.0
  {
    var k := me.king;
    if k.hp <= 0.0 { return; }
    var sidesDown := me.topTower.hp <= 0.0 && me.bottomTower.hp <= 0.0;
    if sidesDown && !k.active {
      k.active := true;
      k.awakeBoostLeft := Max(k.awakeBoostLeft, 10.0);
      k.awakeDuration := 10.0;
    }
    if k.wasDamaged && !k.active {
      k.active := true;
      k.awakeBoostLeft := Max(k.awakeBoostLeft, 10.0);
      k.awakeDuration := 10.0;
    }
  }

  /** `cleanup(arr)`: from the back, every dead unit is spliced out. */
  method Cleanup(arr: seq<Unit>) returns (kept: seq<Unit>)
    ensures kept == LiveUnits(arr)
  {
    kept := arr;
    var i := |arr| - 1;
    while i >= 0
      invariant -1 <= i < |arr|
      invariant kept == arr[..i + 1] + LiveUnits(arr[i + 1..])
    {
      CleanupStep(arr, i, kept);
      if !kept[i].IsAlive() {
        kept := kept[..i] + kept[i + 1..];
      }
      i := i - 1;
    }
    assert arr[0..] == arr;
  }

  /** One iteration of `cleanup`: position `i` holds `arr[i]`, and splicing
      it out when dead extends the filtered suffix by one. */
  lemma CleanupStep(arr: seq<Unit>, i: int, kept: seq<Unit>)
    requires 0 <= i < |arr| && kept == arr[..i + 1] + LiveUnits(arr[i + 1..])
    ensures i < |kept| && kept[i] == arr[i]
    ensures (if kept[i].IsAlive() then kept else kept[..i] + kept[i + 1..]) == arr[..i] + LiveUnits(arr[i..])
  {
    LiveUnitsStep(arr, i);
    assert arr[..i + 1] == arr[..i] + [arr[i]];
    Splice(arr[..i], arr[i], LiveUnits(arr[i + 1..]));
  }

  /** Taking one element apart from a sequence. */
  lemma Splice<T>(pre: seq<T>, x: T, post: seq<T>)
    ensures (pre + [x] + post)[..|pre|] == pre
    ensures (pre + [x] + post)[|pre|] == x
    ensures (pre + [x] + post)[|pre| + 1..] == post
  {
  }

  /** One step of the filter, from position `i`. */
  lemma LiveUnitsStep(s: seq<Unit>, i: int)
    requires 0 <= i < |s|
    ensures LiveUnits(s[i..]) == (if s[i].IsAlive() then [s[i]] else []) + LiveUnits(s[i + 1..])
  {
    assert s[i..][0] == s[i] && s[i..][1..] == s[i + 1..];
  }

  /** Filtering keeps disjoint lanes disjoint. */
  lemma LiveUnitsDisjoint(a: seq<Unit>, b: seq<Unit>)
    requires Disjoint(a, b)
    ensures Disjoint(LiveUnits(a), LiveUnits(b))
  {
    LiveUnitsWithin(a);
    LiveUnitsWithin(b);
  }

  /** The filter keeps only units it was given. */
  lemma LiveUnitsWithin(s: seq<Unit>)
    ensures forall u :: u in LiveUnits(s) ==> u in s
  {
    forall u | u in LiveUnits(s) ensures u in s {
      var i :| 0 <= i < |LiveUnits(s)| && LiveUnits(s)[i] == u;
    }
  }

  /** Filtering distributes over concatenation. */
  lemma {:induction false} LiveUnitsConcat(a: seq<Unit>, b: seq<Unit>)
    ensures LiveUnits(a + b) == LiveUnits(a) + LiveUnits(b)
  {
    if a != [] {
      assert (a + b)[1..] == a[1..] + b;
      LiveUnitsConcat(a[1..], b);
    } else {
      assert a + b == b;
    }
  }

  /** The effects still showing after `dt` more seconds, each with its time
      reduced by `dt`, in their order. */
  function Pruned(effects: seq<Effect>, dt: real): (r: seq<Effect>)
    ensures |r| <= |effects|
    ensures forall i :: 0 <= i < |r| ==> r[i].time > 0.0
  {
    if effects == [] then []
    else
      var e := effects[0].(time := effects[0].time - dt);
      (if e.time > 0.0 then [e] else []) + Pruned(effects[1..], dt)
  }

  /** An effect survives pruning exactly when it had more than `dt` left,
      and then with `dt` less and nothing else changed. */
  lemma {:induction false} PrunedExactly(effects: seq<Effect>, dt: real)
    ensures forall e :: e in effects && e.time - dt > 0.0 ==> e.(time := e.time - dt) in Pruned(effects, dt)
    ensures forall r :: r in Pruned(effects, dt) ==>
      exists e :: e in effects && e.time - dt > 0.0 && r == e.(time := e.time - dt)
  {
    if effects != [] {
      PrunedExactly(effects[1..], dt);
      var e := effects[0];
      assert effects == [e] + effects[1..];
      forall r | r in Pruned(effects, dt)
        ensures exists e :: e in effects && e.time - dt > 0.0 && r == e.(time := e.time - dt)
      {
        if r !in Pruned(effects[1..], dt) {
          assert r == e.(time := e.time - dt);
        }
      }
    }
  }

  /** The effect loop of `Game.update`: from the back, every effect's time
      drops by `dt` and an effect whose time has run out is spliced out. */
  method PruneEffects(effects: seq<Effect>, dt: real) returns (kept: seq<Effect>)
    ensures kept == Pruned(effects, dt)
  {
    kept := effects;
    var i := |effects| - 1;
    while i >= 0
      invariant -1 <= i < |effects|
      invariant kept == effects[..i + 1] + Pruned(effects[i + 1..], dt)
    {
      PruneStep(effects, i, dt, kept);
      kept := kept[..i] + [kept[i].(time := kept[i].time - dt)] + kept[i + 1..];
      if kept[i].time <= 0.0 {
        kept := kept[..i] + kept[i + 1..];
      }
      i := i - 1;
    }
    assert effects[0..] == effects;
  }

  /** One step of `PruneEffects`' loop, at position `i`. */
  lemma PruneStep(effects: seq<Effect>, i: int, dt: real, kept: seq<Effect>)
    requires 0 <= i < |effects| && kept == effects[..i + 1] + Pruned(effects[i + 1..], dt)
    ensures i < |kept| && kept[i] == effects[i]
    ensures var next := kept[..i] + [kept[i].(time := kept[i].time - dt)] + kept[i + 1..];
      (if next[i].time <= 0.0 then next[..i] + next[i + 1..] else next) == effects[..i] + Pruned(effects[i..], dt)
  {
    var e := effects[i].(time := effects[i].time - dt);
    var pre, post := effects[..i], Pruned(effects[i + 1..], dt);
    assert kept == pre + [effects[i]] + post by {
      assert effects[..i + 1] == pre + [effects[i]];
    }
    assert kept[..i] == pre && kept[i] == effects[i] && kept[i + 1..] == post by {
      Splice(pre, effects[i], post);
    }
    var next := kept[..i] + [kept[i].(time := kept[i].time - dt)] + kept[i + 1..];
    assert next == pre + [e] + post;
    PrunedStep(effects, i, dt);
    if e.time > 0.0 {
      assert pre + Pruned(effects[i..], dt) == pre + ([e] + post);
    } else {
      assert next[..i] == pre && next[i + 1..] == post by {
        Splice(pre, e, post);
      }
      assert pre + Pruned(effects[i..], dt) == pre + ([] + post);
    }
  }

  lemma PrunedStep(effects: seq<Effect>, i: int, dt: real)
    requires 0 <= i < |effects|
    ensures var e := effects[i].(time := effects[i].time - dt);
      Pruned(effects[i..], dt) == (if e.time > 0.0 then [e] else []) + Pruned(effects[i + 1..], dt)
  {
    assert effects[i..][0] == effects[i] && effects[i..][1..] == effects[i + 1..];
  }

  // ---------------------------------------------------------------------------
  // The game

  class Game {
    const width: real
    const height: real
    const hypot: Hypot
    const player: Side
    const enemy: Side
    var over: bool
    var winner: Option<int>
    var effects: seq<Effect>

    /** `new Game(width, height)`: both sides at full strength, 5 elixir each,
        the kings dormant, no units and no effects. */
    constructor (width: real, height: real, hypot: Hypot)
      ensures this.width == width && this.height == height && this.hypot == hypot
      ensures fresh(player) && fresh(enemy)
      ensures player.elixir == 5.0 && enemy.elixir == 5.0
      ensures player.king.x == 120.0 && player.topTower.x == 160.0 && player.bottomTower.x == 160.0
      ensures enemy.king.x == width - 120.0 && enemy.topTower.x == width - 160.0
      ensures enemy.bottomTower.x == width - 160.0
      ensures player.king.side == 0 && enemy.king.side == 1
      ensures !player.king.active && !enemy.king.active
      ensures player.Mustered(120.0, 160.0, height) && enemy.Mustered(width - 120.0, width - 160.0, height)
      ensures Units() == [] && !over && winner == None && effects == []
      ensures Valid()
    {
      this.width := width;
      this.height := height;
      this.hypot := hypot;
      player := new Side(120.0, 160.0, height, 0);
      enemy := new Side(width - 120.0, width - 160.0, height, 1);
      over := false;
      winner := None;
      effects := [];
    }

    /** All four lanes: player top, player bottom, enemy top, enemy bottom. */
    function Units(): seq<Unit>
      reads player`unitsTop, player`unitsBottom, enemy`unitsTop, enemy`unitsBottom
    {
      player.unitsTop + player.unitsBottom + enemy.unitsTop + enemy.unitsBottom
    }

    /** All six towers, the player's first. */
    function Towers(): seq<Tower>
    {
      player.Towers() + enemy.Towers()
    }

    /** The six towers, as a set (the frame of a tick). */
    function TowerSet(): set<Tower>
    {
      {player.king, player.topTower, player.bottomTower, enemy.king, enemy.topTower, enemy.bottomTower}
    }

    /** The units of all four lanes, as a set (the frame of a tick). */
    function Roster(): set<Unit>
      reads player`unitsTop, player`unitsBottom, enemy`unitsTop, enemy`unitsBottom
    {
      set u | u in Units()
    }

    /** No unit is in two lanes or twice in one, and the six towers are six. */
    predicate Valid()
      reads player`unitsTop, player`unitsBottom, enemy`unitsTop, enemy`unitsBottom
    {
      && player != enemy
      && player.Valid() && enemy.Valid()
      && Disjoint(player.AllUnits(), enemy.AllUnits())
      && player.Apart(enemy)
    }

    /** The side playing as `side`: 0 is the player, anything else the enemy. */
    function Actor(side: int): Side
    {
      if side == 0 then player else enemy
    }

    /** The side a spell cast by `side` lands on. */
    function Opponent(side: int): Side
    {
      if side == 0 then enemy else player
    }

    /** The y of a lane's centre: "top" is a quarter down, anything else three quarters. */
    function LaneY(lane: string): real
    {
      if lane == "top" then height * 0.25 else height * 0.75
    }

    /** The x at which `side` spawns its units: 190 from its own edge. */
    function SpawnX(side: int): real
    {
      if side == 0 then 190.0 else width - 190.0
    }

    /** `after` is `before` with one new unit of `key` for `side` at its
        back, standing at the side's spawn x, within 6 of the centre of
        `lane`, and steering towards that centre. */
    twostate predicate Joined(before: seq<Unit>, new after: seq<Unit>, side: int, lane: string, key: string)
      reads after
    {
      && |after| == |before| + 1 && after[..|before|] == before
      && var u, spec := after[|before|], UnitSpecOf(key);
         && fresh(u)
         && u.x == SpawnX(side) && u.targetY == LaneY(lane)
         && LaneY(lane) - 6.0 <= u.y < LaneY(lane) + 6.0
         && u.lane == lane && u.side == side && u.hp == spec.hp && u.maxHp == spec.hp
         && u.speed == spec.speed && u.damage == spec.damage && u.range == spec.range
         && u.cooldown == spec.cooldown && u.mass == OrDefault(spec.mass, 1.0)
    }

    /** `spawnUnit(side, lane, key)`, with `jitter` the `Math.random()` draw:
        unless the game is over or the side cannot pay, the side pays the
        unit's cost and one new unit joins the back of the chosen lane
        ("top", or else the bottom lane). The other side is outside the frame. */
    method SpawnUnit(side: int, lane: string, key: string, jitter: real)
      requires Valid()
      requires 0.0 <= jitter < 1.0
      modifies Actor(side)`elixir, Actor(side)`unitsTop, Actor(side)`unitsBottom
      ensures Valid()
      ensures old(over) || old(Actor(side).elixir) < UnitSpecOf(key).cost ==> unchanged(Actor(side))
      ensures !old(over) && old(Actor(side).elixir) >= UnitSpecOf(key).cost ==>
        && Actor(side).elixir == old(Actor(side).elixir) - UnitSpecOf(key).cost
        && (lane == "top" ==>
              && Joined(old(Actor(side).unitsTop), Actor(side).unitsTop, side, lane, key)
              && Actor(side).unitsBottom == old(Actor(side).unitsBottom))
        && (lane != "top" ==>
              && Joined(old(Actor(side).unitsBottom), Actor(side).unitsBottom, side, lane, key)
              && Actor(side).unitsTop == old(Actor(side).unitsTop))
    {
      if over { return; }
      var spec := UnitSpecOf(key);
      var actor := if side == 0 then player else enemy;
      if actor.elixir < spec.cost { return; }
      actor.elixir := actor.elixir - spec.cost;
      var laneY := if lane == "top" then height * 0.25 else height * 0.75;
      var y := laneY + (jitter - 0.5) * 12.0;
      var x := if side == 0 then 190.0 else width - 190.0;
      var u := new Unit(x, y, lane, side, spec);
      u.targetY := laneY;
      actor.Enlist(u, lane == "top");
    }

    /** `castSpell(side, key, x, y, cost)`: unless the game is over or the
        side cannot pay, the side pays `cost`; a fireball or a freeze then
        lands on the opposing side and leaves its effect, and any other key
        does nothing more. Nothing of the caster's but its elixir changes
        (its units and towers are outside the frame). */
    method CastSpell(side: int, key: string, x: real, y: real, cost: real)
      requires Valid()
      modifies this`effects, Actor(side)`elixir
      modifies Opponent(side).AllUnits()`hp, Opponent(side).AllUnits()`hitTime, Opponent(side).AllUnits()`freezeLeft
      modifies Opponent(side).Towers()`hp, Opponent(side).Towers()`wasDamaged, Opponent(side).Towers()`freezeLeft
      ensures Valid()
      ensures old(over) || old(Actor(side).elixir) < cost ==>
        && effects == old(effects) && Actor(side).elixir == old(Actor(side).elixir)
        && Spared(Opponent(side).AllUnits(), Opponent(side).Towers())
      ensures !old(over) && old(Actor(side).elixir) >= cost ==>
        && Actor(side).elixir == old(Actor(side).elixir) - cost
        && effects == old(effects) + SpellEffects(key, x, y)
        && Landed(Opponent(side).AllUnits(), Opponent(side).Towers(), key, x, y, hypot)
    {
      if over { return; }
      if Actor(side).elixir < cost { return; }
      Spend(side, key, x, y, cost);
    }

    /** The part of `castSpell` past its two guards. */
    method Spend(side: int, key: string, x: real, y: real, cost: real)
      requires Valid()
      modifies this`effects, Actor(side)`elixir
      modifies Opponent(side).AllUnits()`hp, Opponent(side).AllUnits()`hitTime, Opponent(side).AllUnits()`freezeLeft
      modifies Opponent(side).Towers()`hp, Opponent(side).Towers()`wasDamaged, Opponent(side).Towers()`freezeLeft
      ensures Valid()
      ensures Actor(side).elixir == old(Actor(side).elixir) - cost
      ensures effects == old(effects) + SpellEffects(key, x, y)
      ensures Landed(Opponent(side).AllUnits(), Opponent(side).Towers(), key, x, y, hypot)
    {
      var actor := Actor(side);
      // the spell touches only the opposing side, so paying after it lands
      // is the same as paying before
      var e := LandSpell(Opponent(side), key, x, y, hypot);
      actor.elixir := actor.elixir - cost;
      effects := effects + e;
    }

    /** Opposing lanes share no unit. */
    lemma LanesApart()
      requires Valid()
      ensures Disjoint(player.unitsTop, enemy.unitsTop) && Disjoint(enemy.unitsTop, player.unitsTop)
      ensures Disjoint(player.unitsBottom, enemy.unitsBottom) && Disjoint(enemy.unitsBottom, player.unitsBottom)
    {
      assert forall u :: u in player.unitsTop || u in player.unitsBottom ==> u in player.AllUnits();
      assert forall u :: u in enemy.unitsTop || u in enemy.unitsBottom ==> u in enemy.AllUnits();
    }

    /** The four lane towers, the player's first. */
    function LaneTowers(): set<Tower>
    {
      {player.topTower, player.bottomTower, enemy.topTower, enemy.bottomTower}
    }

    /** `update(dt)`: one tick of the battle. Unless the game is already
        over, both sides regenerate elixir; every unit acts against the
        opposing lane; collisions and the lane bounds are resolved; the
        towers shoot; dormant kings wake; dead units are swept from the
        lanes; effects age; and the game ends once a king has fallen, the
        winner being the side whose king still stands (the enemy when the
        player's king is down). */
    method Update(dt: real)
      requires Valid()
      modifies this`over, this`winner, this`effects, player`elixir, enemy`elixir
      modifies player`unitsTop, player`unitsBottom, enemy`unitsTop, enemy`unitsBottom
      modifies Roster(), TowerSet()
      ensures Valid()
      ensures old(over) ==> unchanged(this, player, enemy) && Spared(Units(), Towers())
      ensures !old(over) ==>
        && player.elixir == Regen(old(player.elixir), player.elixirRate, dt)
        && enemy.elixir == Regen(old(enemy.elixir), enemy.elixirRate, dt)
        && player.unitsTop == LiveUnits(old(player.unitsTop))
        && player.unitsBottom == LiveUnits(old(player.unitsBottom))
        && enemy.unitsTop == LiveUnits(old(enemy.unitsTop))
        && enemy.unitsBottom == LiveUnits(old(enemy.unitsBottom))
        && Fielded(player.unitsTop, width) && Fielded(player.unitsBottom, width)
        && Fielded(enemy.unitsTop, width) && Fielded(enemy.unitsBottom, width)
        && effects == Pruned(old(effects), dt)
        && player.king.active == (old(player.king.active) || (player.king.hp > 0.0 && WakeDue(player)))
        && enemy.king.active == (old(enemy.king.active) || (enemy.king.hp > 0.0 && WakeDue(enemy)))
        && over == (player.king.hp <= 0.0 || enemy.king.hp <= 0.0)
        && winner == (if !over then old(winner) else if player.king.hp <= 0.0 then Some(1) else Some(0))
    {
      if over { return; }
      player.elixir := Regen(player.elixir, player.elixirRate, dt);
      enemy.elixir := Regen(enemy.elixir, enemy.elixirRate, dt);
      Clash(dt);
      Finish(dt);
    }

    /** The end of a tick: dead units are swept from the lanes, effects
        age, and the game ends once a king has fallen. */
    method Finish(dt: real)
      requires Valid()
      requires forall u :: u in Units() ==> InBounds(u, width)
      modifies this`over, this`winner, this`effects
      modifies player`unitsTop, player`unitsBottom, enemy`unitsTop, enemy`unitsBottom
      ensures Valid()
      ensures player.unitsTop == LiveUnits(old(player.unitsTop))
      ensures player.unitsBottom == LiveUnits(old(player.unitsBottom))
      ensures enemy.unitsTop == LiveUnits(old(enemy.unitsTop))
      ensures enemy.unitsBottom == LiveUnits(old(enemy.unitsBottom))
      ensures Fielded(player.unitsTop, width) && Fielded(player.unitsBottom, width)
      ensures Fielded(enemy.unitsTop, width) && Fielded(enemy.unitsBottom, width)
      ensures effects == Pruned(old(effects), dt)
      ensures over == (old(over) || player.king.hp <= 0.0 || enemy.king.hp <= 0.0)
      ensures winner == (if player.king.hp <= 0.0 then Some(1)
                         else if enemy.king.hp <= 0.0 then Some(0) else old(winner))
    {
      // cleanup reads and writes only the lanes, and the effects and the
      // end of the game do not depend on them, so cleanup may come last
      effects := PruneEffects(effects, dt);
      if player.king.hp <= 0.0 || enemy.king.hp <= 0.0 {
        over := true;
        winner := if player.king.hp <= 0.0 then Some(1) else Some(0);
      }
      Sweep();
    }

    /** The part of a tick between elixir and cleanup: units act, physics
        is resolved, towers shoot, kings wake. Afterwards every unit is in
        bounds, and a king is active exactly when it was, or when it still
        stands and its wake condition holds. */
    method Clash(dt: real)
      requires Valid()
      modifies Roster(), TowerSet()
      ensures forall u :: u in Units() ==> InBounds(u, width)
      ensures player.king.active == (old(player.king.active) || (player.king.hp > 0.0 && WakeDue(player)))
      ensures enemy.king.active == (old(enemy.king.active) || (enemy.king.hp > 0.0 && WakeDue(enemy)))
    {
      AdvanceUnits(dt);
      ResolvePhysics();
      FireTowers(dt);
      assert forall u :: u in Units() ==> InBounds(u, width);
      HandleKingWake(player);
      HandleKingWake(enemy);
    }

    /** The four `updateLane` calls: each side's lane against the opposing
        lane and its tower. No king is involved, and a lane tower is only hit.
        Every unit steps as `Stepped` says, the player's forward (+1) and the
        enemy's backward (-1). A player unit acts when it was alive at the
        start; an enemy unit's lane moves after the player's, so it acts when
        it survived that, which is when it is alive at the end. */
    method AdvanceUnits(dt: real)
      requires Valid()
      modifies Roster(), LaneTowers()`hp, LaneTowers()`wasDamaged
      ensures forall u :: u in player.AllUnits() ==>
        u.Stepped(old(u.CurrentMotion()), u.CurrentMotion(), old(u.hp) > 0.0, dt, 1.0)
      ensures forall u :: u in enemy.AllUnits() ==>
        u.Stepped(old(u.CurrentMotion()), u.CurrentMotion(), u.hp > 0.0, dt, -1.0)
    {
      LanesApart();
      ClashLane(player.unitsTop, enemy.unitsTop, player.topTower, enemy.topTower, dt);
      ClashLane(player.unitsBottom, enemy.unitsBottom, player.bottomTower, enemy.bottomTower, dt);
      assert forall u :: u in player.AllUnits() ==> u in player.unitsTop || u in player.unitsBottom;
      assert forall u :: u in enemy.AllUnits() ==> u in enemy.unitsTop || u in enemy.unitsBottom;
    }

    /** The two `updateLane` calls of one lane: the player's units `mine`
        against `theirs` and `theirTower`, then `theirs` against `mine` and
        `myTower`. The other lane is not involved, so the lanes may take
        their turns one after the other. */
    method ClashLane(mine: seq<Unit>, theirs: seq<Unit>, myTower: Tower, theirTower: Tower, dt: real)
      requires Distinct(mine) && Distinct(theirs) && Disjoint(mine, theirs) && Disjoint(theirs, mine)
      modifies mine, theirs, myTower`hp, myTower`wasDamaged, theirTower`hp, theirTower`wasDamaged
      ensures forall u :: u in mine ==>
        u.Stepped(old(u.CurrentMotion()), u.CurrentMotion(), old(u.hp) > 0.0, dt, 1.0)
      ensures forall u :: u in theirs ==>
        u.Stepped(old(u.CurrentMotion()), u.CurrentMotion(), u.hp > 0.0, dt, -1.0)
    {
      UpdateLane(mine, theirs, theirTower, 1.0, dt, hypot);
      UpdateLane(theirs, mine, myTower, -1.0, dt, hypot);
    }

    /** The six tower updates of a tick: the player's lane towers against
        the enemy's lanes, the enemy's against the player's, then the two
        kings against both opposing lanes. Units are only hit, and no
        tower's hp, active flag or damage mark changes, so the wake rule
        that follows sees the towers as the units left them. What each
        tower does is stated by `FirePair` and `FireKings`, per call. */
    method FireTowers(dt: real)
      requires Valid()
      modifies Roster()`hp, Roster()`hitTime
      modifies TowerSet()`awakeBoostLeft, TowerSet()`damage, TowerSet()`cooldown, TowerSet()`freezeLeft
      modifies TowerSet()`cooldownLeft
      ensures Valid()
    {
      LanesApart();
      FirePair(player.topTower, enemy.unitsTop, player.bottomTower, enemy.unitsBottom, dt, hypot);
      FirePair(enemy.topTower, player.unitsTop, enemy.bottomTower, player.unitsBottom, dt, hypot);
      FireKings(player.king, enemy.king, player.unitsTop, player.unitsBottom, enemy.unitsTop, enemy.unitsBottom,
                dt, hypot);
    }

    /** The four `resolvePhysicsLane` calls; afterwards every unit is in bounds. */
    method ResolvePhysics()
      modifies Roster()`x, Roster()`y, Roster()`vx, Roster()`vy
      ensures forall u :: u in Units() ==> InBounds(u, width)
    {
      ResolvePhysicsLane(player.unitsTop, enemy.unitsTop, 1.0, width, hypot);
      ResolvePhysicsLane(player.unitsBottom, enemy.unitsBottom, 1.0, width, hypot);
      ResolvePhysicsLane(enemy.unitsTop, player.unitsTop, -1.0, width, hypot);
      ResolvePhysicsLane(enemy.unitsBottom, player.unitsBottom, -1.0, width, hypot);
    }

    /** The four `cleanup` calls: each lane keeps its live units, in order,
        and then holds only live units, all in bounds. */
    method Sweep()
      requires Valid()
      requires forall u :: u in Units() ==> InBounds(u, width)
      modifies player`unitsTop, player`unitsBottom, enemy`unitsTop, enemy`unitsBottom
      ensures Valid()
      ensures player.unitsTop == LiveUnits(old(player.unitsTop))
      ensures player.unitsBottom == LiveUnits(old(player.unitsBottom))
      ensures enemy.unitsTop == LiveUnits(old(enemy.unitsTop))
      ensures enemy.unitsBottom == LiveUnits(old(enemy.unitsBottom))
      ensures Fielded(player.unitsTop, width) && Fielded(player.unitsBottom, width)
      ensures Fielded(enemy.unitsTop, width) && Fielded(enemy.unitsBottom, width)
    {
      var pt0, pb0, et0, eb0 := player.unitsTop, player.unitsBottom, enemy.unitsTop, enemy.unitsBottom;
      Swept(pt0, pb0, et0, eb0, width);
      var pt, pb, et, eb := CleanupAll(pt0, pb0, et0, eb0);
      label swept:
      Store(pt, pb, et, eb);
      LiveUnitsKept(pt0);
      LiveUnitsKept(pb0);
      LiveUnitsKept(et0);
      LiveUnitsKept(eb0);
    }

    /** Puts back the four swept lanes. */
    method Store(pt: seq<Unit>, pb: seq<Unit>, et: seq<Unit>, eb: seq<Unit>)
      requires Valid()
      requires Distinct(pt) && Distinct(pb) && Disjoint(pt, pb)
      requires Distinct(et) && Distinct(eb) && Disjoint(et, eb)
      requires Disjoint(pt + pb, et + eb)
      requires Fielded(pt, width) && Fielded(pb, width) && Fielded(et, width) && Fielded(eb, width)
      modifies player`unitsTop, player`unitsBottom, enemy`unitsTop, enemy`unitsBottom
      ensures Valid()
      ensures player.unitsTop == pt && player.unitsBottom == pb
      ensures enemy.unitsTop == et && enemy.unitsBottom == eb
      ensures Fielded(player.unitsTop, width) && Fielded(player.unitsBottom, width)
      ensures Fielded(enemy.unitsTop, width) && Fielded(enemy.unitsBottom, width)
    {
      player.unitsTop, player.unitsBottom, enemy.unitsTop, enemy.unitsBottom := pt, pb, et, eb;
    }
  }

  /** The four `cleanup` calls of a tick, on the lanes as values. */
  method CleanupAll(pt: seq<Unit>, pb: seq<Unit>, et: seq<Unit>, eb: seq<Unit>)
    returns (pt': seq<Unit>, pb': seq<Unit>, et': seq<Unit>, eb': seq<Unit>)
    ensures pt' == old(LiveUnits(pt)) && pb' == old(LiveUnits(pb))
    ensures et' == old(LiveUnits(et)) && eb' == old(LiveUnits(eb))
  {
    pt' := Cleanup(pt);
    LiveUnitsKept(pt);
    pb' := Cleanup(pb);
    LiveUnitsKept(pb);
    et' := Cleanup(et);
    LiveUnitsKept(et);
    eb' := Cleanup(eb);
    LiveUnitsKept(eb);
  }

  /** The filter sees only hp, so it gives the same result in a state
      where no unit's hp changed. */
  twostate lemma {:induction false} LiveUnitsKept(s: seq<Unit>)
    requires forall u :: u in s ==> u.hp == old(u.hp)
    ensures LiveUnits(s) == old(LiveUnits(s))
  {
    if s != [] {
      LiveUnitsKept(s[1..]);
    }
  }

  /** Sweeping keeps the two sides' units apart. */
  lemma SweptApart(pt: seq<Unit>, pb: seq<Unit>, et: seq<Unit>, eb: seq<Unit>)
    requires Disjoint(pt + pb, et + eb)
    ensures Disjoint(LiveUnits(pt) + LiveUnits(pb), LiveUnits(et) + LiveUnits(eb))
  {
    LiveUnitsDisjoint(pt + pb, et + eb);
    LiveUnitsConcat(pt, pb);
    LiveUnitsConcat(et, eb);
  }

  /** Four lanes, the first two one side's and the last two the other's,
      kept free of repeats, apart and in bounds, are swept into lanes that
      are still free of repeats and apart and hold only live units. */
  lemma Swept(pt: seq<Unit>, pb: seq<Unit>, et: seq<Unit>, eb: seq<Unit>, w: real)
    requires Distinct(pt) && Distinct(pb) && Disjoint(pt, pb)
    requires Distinct(et) && Distinct(eb) && Disjoint(et, eb)
    requires Disjoint(pt + pb, et + eb)
    requires forall u :: u in pt + pb + et + eb ==> InBounds(u, w)
    ensures Distinct(LiveUnits(pt)) && Distinct(LiveUnits(pb)) && Disjoint(LiveUnits(pt), LiveUnits(pb))
    ensures Distinct(LiveUnits(et)) && Distinct(LiveUnits(eb)) && Disjoint(LiveUnits(et), LiveUnits(eb))
    ensures Disjoint(LiveUnits(pt) + LiveUnits(pb), LiveUnits(et) + LiveUnits(eb))
    ensures Fielded(LiveUnits(pt), w) && Fielded(LiveUnits(pb), w)
    ensures Fielded(LiveUnits(et), w) && Fielded(LiveUnits(eb), w)
  {
    SweptApart(pt, pb, et, eb);
    SweptLanes(pt, pb);
    SweptLanes(et, eb);
    LiveUnitsFielded(pt, w);
    LiveUnitsFielded(pb, w);
    LiveUnitsFielded(et, w);
    LiveUnitsFielded(eb, w);
  }

  /** Two lanes swept of their dead stay free of repeats and apart, and
      hold only live units. */
  lemma SweptLanes(top: seq<Unit>, bottom: seq<Unit>)
    requires Distinct(top) && Distinct(bottom) && Disjoint(top, bottom)
    ensures Distinct(LiveUnits(top)) && Distinct(LiveUnits(bottom))
    ensures Disjoint(LiveUnits(top), LiveUnits(bottom))
  {
    LiveUnitsDistinct(top);
    LiveUnitsDistinct(bottom);
    LiveUnitsDisjoint(top, bottom);
  }

  /** The filter leaves only live units, and keeps in bounds what was. */
  lemma {:induction false} LiveUnitsFielded(s: seq<Unit>, w: real)
    requires Bounded(s, w)
    ensures Fielded(LiveUnits(s), w)
  {
    if s != [] {
      assert Bounded(s[1..], w) by {
        forall u | u in s[1..] ensures InBounds(u, w) {
          assert u in s;
        }
      }
      LiveUnitsFielded(s[1..], w);
      var head := if s[0].IsAlive() then [s[0]] else [];
      assert Fielded(head, w);
      FieldedConcat(head, LiveUnits(s[1..]), w);
    }
  }

  lemma FieldedConcat(a: seq<Unit>, b: seq<Unit>, w: real)
    requires Fielded(a, w) && Fielded(b, w)
    ensures Fielded(a + b, w)
  {
    forall i | 0 <= i < |a + b| ensures (a + b)[i].hp > 0.0 && InBounds((a + b)[i], w) {
      if i >= |a| {
        assert (a + b)[i] == b[i - |a|];
      }
    }
  }

  /** Nothing of these units and towers changed. */
  twostate predicate Spared(units: seq<Unit>, towers: seq<Tower>)
    reads units, towers
  {
    (forall u :: u in units ==> unchanged(u)) && (forall t :: t in towers ==> unchanged(t))
  }

  /** What a spell keyed `key` cast at (x, y) did to one side's units and
      towers: a fireball burned them, a freeze chilled them, and any other
      key left them as they were. */
  twostate predicate Landed(units: seq<Unit>, towers: seq<Tower>, key: string, x: real, y: real, hypot: Hypot)
    reads units, towers
  {
    && (key == "fireball" ==> Burned(units, towers, x, y, hypot))
    && (key == "freeze" ==> Chilled(units, towers, x, y, hypot))
    && (key != "fireball" && key != "freeze" ==> Spared(units, towers))
  }

  /** The effects a spell keyed `key` leaves at (x, y): one circle for a
      fireball or a freeze, none for any other key. */
  function SpellEffects(key: string, x: real, y: real): (r: seq<Effect>)
    ensures |r| <= 1
    ensures r != [] <==> key == "fireball" || key == "freeze"
    ensures r != [] ==> r[0].kind == key && r[0].x == x && r[0].y == y
  {
    if key == "fireball" then [Effect("fireball", x, y, 60.0, 0.35)]
    else if key == "freeze" then [Effect("freeze", x, y, 80.0, 2.5)]
    else []
  }

  /** The dispatch of `castSpell` on the spell's key. */
  method LandSpell(foe: Side, key: string, x: real, y: real, hypot: Hypot) returns (e: seq<Effect>)
    requires foe.Valid()
    modifies foe.AllUnits()`hp, foe.AllUnits()`hitTime, foe.AllUnits()`freezeLeft
    modifies foe.Towers()`hp, foe.Towers()`wasDamaged, foe.Towers()`freezeLeft
    ensures e == SpellEffects(key, x, y)
    ensures Landed(foe.AllUnits(), foe.Towers(), key, x, y, hypot)
  {
    if key == "fireball" {
      var fx := Fireball(foe, x, y, hypot);
      e := [fx];
    } else if key == "freeze" {
      var fx := Freeze(foe, x, y, hypot);
      e := [fx];
    } else {
      e := [];
    }
  }
}
