/** Towers, units, the unit catalogue and the combat helpers shared by the
    battle simulation (src/entities.js). Drawing is not modelled. */
module Entities {
  import opened Wrappers

  /** The platform's Math.hypot. The model never interprets it: every
      property proved about targeting, spells and physics holds whatever
      distance function the runtime supplies. */
  type Hypot = (real, real) -> real

  /** Unit masses are divided by, and `spec.mass || 1` is never 0. */
  type NonZeroReal = r: real | r != 0.0 witness 1.0

  function Min(a: real, b: real): real { if a <= b then a else b }
  function Max(a: real, b: real): real { if a >= b then a else b }
  function Abs(a: real): real { if a < 0.0 then -a else a }
  function Sign(a: real): real { if a > 0.0 then 1.0 else if a < 0.0 then -1.0 else 0.0 }

  /** How every countdown timer of an entity advances: `if (t > 0) t -= dt`. */
  function Countdown(t: real, dt: real): real { if t > 0.0 then t - dt else t }

  /** The lane spring of a unit's vertical velocity: a pull towards the lane
      centre `dy` away, at most 60 strong, then drag. */
  function LaneSpring(vy: real, dy: real, dt: real): real {
    (vy + Sign(dy) * Min(60.0, Abs(dy)) * 0.05 * dt) * 0.9
  }

  /** JavaScript's `o || d` on an optional number: a missing entry or 0 falls back to `d`. */
  function OrDefault(o: Option<real>, d: real): real { if o.Some? && o.value != 0.0 then o.value else d }

  /** `dist(a, b)`: the distance from point a to point b. */
  function Dist(hypot: Hypot, x1: real, y1: real, x2: real, y2: real): real { hypot(x1 - x2, y1 - y2) }

  // ---------------------------------------------------------------------------
  // The unit catalogue

  /** One entry of the catalogue; `mass` is absent for the fallback entry. */
  datatype UnitSpec = UnitSpec(hp: real, speed: real, damage: real, range: real,
                               cooldown: real, cost: real, mass: Option<real>)

  const UnitKeys: set<string> := {"knight", "archer", "tank", "bomber"}

  /** `unitSpec(key)`: the catalogue entry for a unit type; an unknown key
      gets a generic fallback entry instead of failing. */
  function UnitSpecOf(key: string): (s: UnitSpec)
    ensures s.cost == (if key == "tank" then 5.0 else if key == "bomber" then 4.0 else 3.0)
    ensures s.mass.Some? <==> key in UnitKeys
    ensures key !in UnitKeys ==> s.hp == 300.0 && s.damage == 18.0 && s.range == 28.0
    ensures s.hp > 0.0 && s.speed > 0.0 && s.damage > 0.0 && s.range > 0.0 && s.cooldown > 0.0
  {
    if key == "knight" then UnitSpec(520.0, 62.0, 21.0, 28.0, 0.9, 3.0, Some(1.2))
    else if key == "archer" then UnitSpec(190.0, 70.0, 16.0, 145.0, 0.95, 3.0, Some(0.8))
    else if key == "tank" then UnitSpec(1050.0, 38.0, 32.0, 30.0, 1.15, 5.0, Some(2.2))
    else if key == "bomber" then UnitSpec(230.0, 65.0, 48.0, 115.0, 1.45, 4.0, Some(1.0))
    else UnitSpec(300.0, 60.0, 18.0, 28.0, 1.0, 3.0, None)
  }

  /** The optional settings a tower is built from (`spec = {}` in the source). */
  datatype TowerSpec = TowerSpec(w: Option<real>, h: Option<real>, hp: Option<real>,
                                 range: Option<real>, damage: Option<real>,
                                 cooldown: Option<real>, active: Option<bool>)

  /** What a unit or a tower is aiming at: an opposing unit or the opposing lane tower. */
  datatype Target = UnitTarget(unit: Unit) | TowerTarget(tower: Tower)

  function TargetObject(t: Target): object
  {
    match t
    case UnitTarget(u) => u
    case TowerTarget(tw) => tw
  }

  /** The unit `t` names, if any. */
  function HitUnits(t: Target): set<Unit>
  {
    if t.UnitTarget? then {t.unit} else {}
  }

  /** The tower `t` names, if any. */
  function HitTowers(t: Target): set<Tower>
  {
    if t.TowerTarget? then {t.tower} else {}
  }

  /** In the current state, `t` carries the marks of one `applyDamage(t, amount)` since the old state. */
  twostate predicate Struck(t: Target, amount: real)
    reads TargetObject(t)
  {
    match t
    case UnitTarget(u) => u.hp == old(u.hp) - amount && u.hitTime == 0.2
    case TowerTarget(tw) => tw.hp == old(tw.hp) - amount && tw.wasDamaged
  }

  /** Of the units `cands`, exactly the one at index `victim`, if any,
      lost `amount` hp and flashes; every other one kept its hp and its
      hit flash. */
  twostate predicate Hit(cands: seq<Unit>, victim: Option<nat>, amount: real)
    reads cands`hp, cands`hitTime
  {
    forall u :: u in cands ==>
      if victim.Some? && victim.value < |cands| && u == cands[victim.value] then
        u.hp == old(u.hp) - amount && u.hitTime == 0.2
      else
        u.hp == old(u.hp) && u.hitTime == old(u.hitTime)
  }

  /** The state a tower's tick works on: everything of a tower that is not fixed. */
  datatype TowerState = TowerState(
    hp: real, active: bool, wasDamaged: bool, awakeBoostLeft: real, awakeDuration: real,
    damage: real, cooldown: real, cooldownLeft: real, freezeLeft: real)

  /** What a unit's tick changes of the unit apart from its hp, its hit
      flash and its target: position, velocity, the cooldown and freeze
      countdowns, and the lane line it springs towards. */
  datatype Motion = Motion(
    x: real, y: real, vx: real, vy: real, cooldownLeft: real, freezeLeft: real, targetY: real)

  // ---------------------------------------------------------------------------
  // Towers

  class Tower {
    const x: real
    const y: real
    const w: real
    const h: real
    var hp: real
    const maxHp: real
    const range: real
    const baseDamage: real
    const baseCooldown: real
    var damage: real
    var cooldown: real
    var cooldownLeft: real
    const side: int
    var freezeLeft: real
    var active: bool
    var wasDamaged: bool
    var awakeBoostLeft: real
    var awakeDuration: real

    constructor (x: real, y: real, side: int, spec: TowerSpec)
      ensures this.x == x && this.y == y && this.side == side
      ensures w == OrDefault(spec.w, 40.0) && h == OrDefault(spec.h, 80.0)
      ensures hp == OrDefault(spec.hp, 2000.0) && maxHp == hp
      ensures range == OrDefault(spec.range, 160.0)
      ensures baseDamage == OrDefault(spec.damage, 30.0) && damage == baseDamage
      ensures baseCooldown == OrDefault(spec.cooldown, 0.9) && cooldown == baseCooldown
      ensures cooldownLeft == 0.0 && freezeLeft == 0.0
      ensures active == (if spec.active.Some? then spec.active.value else true)
      ensures !wasDamaged && awakeBoostLeft == 0.0 && awakeDuration == 0.0
    {
      this.x := x;
      this.y := y;
      this.w := OrDefault(spec.w, 40.0);
      this.h := OrDefault(spec.h, 80.0);
      this.hp := OrDefault(spec.hp, 2000.0);
      this.maxHp := OrDefault(spec.hp, 2000.0);
      this.range := OrDefault(spec.range, 160.0);
      this.baseDamage := OrDefault(spec.damage, 30.0);
      this.baseCooldown := OrDefault(spec.cooldown, 0.9);
      this.damage := OrDefault(spec.damage, 30.0);
      this.cooldown := OrDefault(spec.cooldown, 0.9);
      this.cooldownLeft := 0.0;
      this.side := side;
      this.freezeLeft := 0.0;
      this.active := if spec.active.Some? then spec.active.value else true;
      this.wasDamaged := false;
      this.awakeBoostLeft := 0.0;
      this.awakeDuration := 0.0;
    }

    /** The tower's changing fields, as a value. */
    function State(): TowerState
      reads this
    {
      TowerState(hp, active, wasDamaged, awakeBoostLeft, awakeDuration, damage, cooldown, cooldownLeft, freezeLeft)
    }

    /** The state one tick takes this tower to from `s`, `found` saying
        whether a candidate was in range: a fallen or dormant tower keeps
        its state; an active one counts its wake boost down, hits 25%
        harder and 15% faster while the boost lasts, and then either thaws
        by dt or counts its cooldown down, restarting it when it has run
        out and there was a candidate to shoot. */
    function Next(s: TowerState, dt: real, found: bool): (r: TowerState)
      ensures r.hp == s.hp && r.active == s.active && r.wasDamaged == s.wasDamaged
      ensures r.awakeDuration == s.awakeDuration
      ensures s.hp <= 0.0 || !s.active ==> r == s
      ensures s.hp > 0.0 && s.active ==>
        (r.damage, r.cooldown) == (if s.awakeBoostLeft > 0.0 then (baseDamage * 1.25, baseCooldown * 0.85)
                                   else (baseDamage, baseCooldown))
      ensures s.freezeLeft > 0.0 ==> r.cooldownLeft == s.cooldownLeft
      ensures !found ==> r.cooldownLeft == s.cooldownLeft || r.cooldownLeft == Countdown(s.cooldownLeft, dt)
    {
      if s.hp <= 0.0 || !s.active then s
      else
        var boosted := s.awakeBoostLeft > 0.0;
        var d := if boosted then baseDamage * 1.25 else baseDamage;
        var c := if boosted then baseCooldown * 0.85 else baseCooldown;
        var enraged := s.(awakeBoostLeft := Countdown(s.awakeBoostLeft, dt), damage := d, cooldown := c);
        if s.freezeLeft > 0.0 then enraged.(freezeLeft := s.freezeLeft - dt)
        else
          var left := Countdown(s.cooldownLeft, dt);
          enraged.(cooldownLeft := if found && left <= 0.0 then c else left)
    }

    /** The index of the candidate a tower in state `s` shoots in a tick,
        `near` being the nearest candidate in range: it must be standing,
        active and unfrozen, with its cooldown run out by the end of the
        countdown. */
    function Victim(s: TowerState, dt: real, near: Option<nat>): (v: Option<nat>)
      ensures v.Some? ==> v == near && s.hp > 0.0 && s.active && s.freezeLeft <= 0.0
      ensures v.Some? <==> near.Some? && s.hp > 0.0 && s.active && s.freezeLeft <= 0.0 && Countdown(s.cooldownLeft, dt) <= 0.0
      ensures v.Some? ==> Next(s, dt, true).cooldownLeft == Next(s, dt, true).cooldown
    {
      if s.hp > 0.0 && s.active && s.freezeLeft <= 0.0 && near.Some? && Countdown(s.cooldownLeft, dt) <= 0.0
      then near else None
    }

    /** Since the old state only `hp` and `wasDamaged` may have changed. */
    twostate predicate OnlyHit()
      reads this
    {
      damage == old(damage) && cooldown == old(cooldown) && cooldownLeft == old(cooldownLeft)
      && freezeLeft == old(freezeLeft) && active == old(active)
      && awakeBoostLeft == old(awakeBoostLeft) && awakeDuration == old(awakeDuration)
    }

    /** One tick of a tower: enrage bookkeeping, then either a frozen tick
        or a countdown and a shot at the nearest candidate in range. The
        candidates are not filtered for liveness. */
    method Update(dt: real, enemies: seq<Unit>, hypot: Hypot)
      modifies this`awakeBoostLeft, this`damage, this`cooldown, this`freezeLeft, this`cooldownLeft
      modifies enemies`hp, enemies`hitTime
      ensures hp == old(hp) && active == old(active) && wasDamaged == old(wasDamaged)
      ensures awakeDuration == old(awakeDuration)
      ensures forall e :: e in enemies ==> e.OnlyHit()
      ensures old(hp <= 0.0 || !active) ==>
        unchanged(this) && forall e :: e in enemies ==> unchanged(e)
      ensures old(hp > 0.0 && active) ==>
        && awakeBoostLeft == Countdown(old(awakeBoostLeft), dt)
        && damage == (if old(awakeBoostLeft) > 0.0 then baseDamage * 1.25 else baseDamage)
        && cooldown == (if old(awakeBoostLeft) > 0.0 then baseCooldown * 0.85 else baseCooldown)
      ensures old(hp > 0.0 && active && freezeLeft > 0.0) ==>
        && freezeLeft == old(freezeLeft) - dt
        && cooldownLeft == old(cooldownLeft)
        && forall e :: e in enemies ==> unchanged(e)
      ensures old(hp > 0.0 && active && freezeLeft <= 0.0) ==>
        var near := old(NearestIndex(hypot, x, y, enemies, range));
        var left := Countdown(old(cooldownLeft), dt);
        && freezeLeft == old(freezeLeft)
        && (if near.Some? && left <= 0.0 then
              && cooldownLeft == cooldown
              && Struck(UnitTarget(enemies[near.value]), damage)
              && forall e :: e in enemies && e != enemies[near.value] ==> unchanged(e)
            else
              && cooldownLeft == left
              && forall e :: e in enemies ==> unchanged(e))
      ensures State() == Next(old(State()), dt, old(NearestIndex(hypot, x, y, enemies, range)).Some?)
      ensures Hit(enemies, Victim(old(State()), dt, old(NearestIndex(hypot, x, y, enemies, range))), damage)
    {
      if hp <= 0.0 { return; }
      if !active { return; }
      Enrage(dt);
      if freezeLeft > 0.0 {
        freezeLeft := freezeLeft - dt;
        return;
      }
      Fire(dt, enemies, hypot);
    }

    /** The enrage bookkeeping of a live, active tower: while the wake boost
        lasts it counts down and the tower hits 25% harder and 15% faster. */
    method Enrage(dt: real)
      modifies this`awakeBoostLeft, this`damage, this`cooldown
      ensures awakeBoostLeft == Countdown(old(awakeBoostLeft), dt)
      ensures damage == (if old(awakeBoostLeft) > 0.0 then baseDamage * 1.25 else baseDamage)
      ensures cooldown == (if old(awakeBoostLeft) > 0.0 then baseCooldown * 0.85 else baseCooldown)
    {
      if awakeBoostLeft > 0.0 {
        awakeBoostLeft := awakeBoostLeft - dt;
        damage := baseDamage * 1.25;
        cooldown := baseCooldown * 0.85;
      } else {
        damage := baseDamage;
        cooldown := baseCooldown;
      }
    }

    /** The shot of an unfrozen tower: count the cooldown down and, once it
        has run out, hit the nearest candidate in range and restart it. */
    method Fire(dt: real, enemies: seq<Unit>, hypot: Hypot)
      modifies this`cooldownLeft, enemies`hp, enemies`hitTime
      ensures var near := old(NearestIndex(hypot, x, y, enemies, range));
        var left := Countdown(old(cooldownLeft), dt);
        if near.Some? && left <= 0.0 then
          && cooldownLeft == cooldown
          && Struck(UnitTarget(enemies[near.value]), damage)
          && forall e :: e in enemies && e != enemies[near.value] ==> unchanged(e)
        else
          && cooldownLeft == left
          && forall e :: e in enemies ==> unchanged(e)
    {
      // the scan reads only the candidates, so it may come before the countdown
      var near := NearestInRange(x, y, enemies, range, hypot);
      cooldownLeft := Countdown(cooldownLeft, dt);
      if near.Some? && cooldownLeft <= 0.0 {
        ApplyDamage(UnitTarget(enemies[near.value]), damage);
        cooldownLeft := cooldown;
      }
    }
  }

  // ---------------------------------------------------------------------------
  // Units

  class Unit {
    var x: real
    var y: real
    const r: real
    var hp: real
    const maxHp: real
    const speed: real
    const damage: real
    const range: real
    const cooldown: real
    var cooldownLeft: real
    const lane: string
    const side: int
    var target: Option<Target>
    var freezeLeft: real
    var hitTime: real
    const mass: NonZeroReal
    var vx: real
    var vy: real
    var targetY: real

    constructor (x: real, y: real, lane: string, side: int, spec: UnitSpec)
      ensures this.x == x && this.y == y && this.lane == lane && this.side == side
      ensures r == 12.0 && hp == spec.hp && maxHp == spec.hp
      ensures speed == spec.speed && damage == spec.damage && range == spec.range
      ensures cooldown == spec.cooldown && cooldownLeft == 0.0
      ensures target == None && freezeLeft == 0.0 && hitTime == 0.0
      ensures mass == OrDefault(spec.mass, 1.0)
      ensures vx == 0.0 && vy == 0.0 && targetY == y
    {
      this.x := x;
      this.y := y;
      this.r := 12.0;
      this.hp := spec.hp;
      this.maxHp := spec.hp;
      this.speed := spec.speed;
      this.damage := spec.damage;
      this.range := spec.range;
      this.cooldown := spec.cooldown;
      this.cooldownLeft := 0.0;
      this.lane := lane;
      this.side := side;
      this.target := None;
      this.freezeLeft := 0.0;
      this.hitTime := 0.0;
      this.mass := OrDefault(spec.mass, 1.0);
      this.vx := 0.0;
      this.vy := 0.0;
      this.targetY := y;
    }

    predicate IsAlive()
      reads this`hp
    {
      hp > 0.0
    }

    /** The unit's motion and countdowns, as a value. */
    function CurrentMotion(): Motion
      reads this`x, this`y, this`vx, this`vy, this`cooldownLeft, this`freezeLeft, this`targetY
    {
      Motion(x, y, vx, vy, cooldownLeft, freezeLeft, targetY)
    }

    /** The countdowns of one tick from `m0` to `m1`: a dead unit keeps
        them, a frozen one only thaws by dt, and any other keeps its freeze
        and counts its cooldown down, restarting it at `cooldown` when it
        strikes. The lane line never moves. */
    predicate Timed(m0: Motion, m1: Motion, alive: bool, dt: real)
    {
      && m1.targetY == m0.targetY
      && if !alive then m1.cooldownLeft == m0.cooldownLeft && m1.freezeLeft == m0.freezeLeft
         else if m0.freezeLeft > 0.0 then
           m1.freezeLeft == m0.freezeLeft - dt && m1.cooldownLeft == m0.cooldownLeft
         else
           var left := Countdown(m0.cooldownLeft, dt);
           m1.freezeLeft == m0.freezeLeft && (m1.cooldownLeft == left || (left <= 0.0 && m1.cooldownLeft == cooldown))
    }

    /** One tick's motion from `m0` to `m1`, moving in `direction`: a dead
        or frozen unit stays where it is with the same velocity; any other
        springs towards its lane line vertically and, horizontally, keeps
        90% of its velocity after a forward push of half its speed, the
        push coming only when it had nothing to fight. */
    predicate Stepped(m0: Motion, m1: Motion, alive: bool, dt: real, direction: real)
    {
      && Timed(m0, m1, alive, dt)
      && if !alive || m0.freezeLeft > 0.0 then
           m1.x == m0.x && m1.y == m0.y && m1.vx == m0.vx && m1.vy == m0.vy
         else
           && (m1.vx == m0.vx * 0.9 || m1.vx == (m0.vx + direction * speed * 0.5 * dt) * 0.9)
           && m1.vy == LaneSpring(m0.vy, m0.targetY - m0.y, dt)
           && m1.x == m0.x + m1.vx * dt && m1.y == m0.y + m1.vy * dt
    }

    /** Since the old state only `hp` and `hitTime` may have changed. */
    twostate predicate OnlyHit()
      reads this
    {
      x == old(x) && y == old(y) && vx == old(vx) && vy == old(vy) && cooldownLeft == old(cooldownLeft)
      && target == old(target) && freezeLeft == old(freezeLeft) && targetY == old(targetY)
    }

    /** Since the old state only the velocity may have changed. */
    twostate predicate OnlyPushed()
      reads this
    {
      x == old(x) && y == old(y) && hp == old(hp) && cooldownLeft == old(cooldownLeft)
      && target == old(target) && freezeLeft == old(freezeLeft) && hitTime == old(hitTime)
      && targetY == old(targetY)
    }

    /** Since the old state only the position and the velocity may have changed. */
    twostate predicate OnlyMoved()
      reads this
    {
      hp == old(hp) && cooldownLeft == old(cooldownLeft) && target == old(target)
      && freezeLeft == old(freezeLeft) && hitTime == old(hitTime) && targetY == old(targetY)
    }

    /** One tick of a unit: nothing when dead, only the freeze countdown when
        frozen, otherwise the combat and movement step `Act`. */
    method Update(dt: real, enemies: seq<Unit>, enemyTower: Tower, direction: real, hypot: Hypot)
      requires this !in enemies
      modifies this, enemies`hp, enemies`hitTime, enemyTower`hp, enemyTower`wasDamaged
      ensures forall e :: e in enemies ==> e.OnlyHit()
      ensures enemyTower.OnlyHit()
      ensures hp == old(hp) && targetY == old(targetY)
      ensures old(hp <= 0.0) ==>
        unchanged(this) && unchanged(enemyTower) && forall e :: e in enemies ==> unchanged(e)
      ensures old(hp > 0.0 && freezeLeft > 0.0) ==>
        && freezeLeft == old(freezeLeft) - dt
        && x == old(x) && y == old(y) && vx == old(vx) && vy == old(vy)
        && hp == old(hp) && cooldownLeft == old(cooldownLeft) && target == old(target)
        && hitTime == old(hitTime) && targetY == old(targetY)
        && unchanged(enemyTower) && forall e :: e in enemies ==> unchanged(e)
      ensures old(hp > 0.0 && freezeLeft <= 0.0) ==> Acted(dt, enemies, enemyTower, direction, hypot)
      ensures Stepped(old(CurrentMotion()), CurrentMotion(), old(hp) > 0.0, dt, direction)
      ensures hitTime == if old(hp > 0.0 && freezeLeft <= 0.0) then Countdown(old(hitTime), dt) else old(hitTime)
    {
      if !IsAlive() { return; }
      if freezeLeft > 0.0 {
        freezeLeft := freezeLeft - dt;
        return;
      }
      Act(dt, enemies, enemyTower, direction, hypot);
    }

    /** What one unfrozen tick of a live unit does, between the old and the current state. */
    twostate predicate Acted(dt: real, enemies: seq<Unit>, enemyTower: Tower, direction: real, hypot: Hypot)
      reads this, enemies, enemyTower
    {
      var left := Countdown(old(cooldownLeft), dt);
      var strikes := target.Some? && left <= 0.0;
      && target == old(TargetChoice(hypot, x, y, range, LiveUnits(enemies), enemyTower))
      && (if strikes then cooldownLeft == cooldown && Struck(target.value, damage)
          else cooldownLeft == left)
      && (forall e :: e in enemies && !(strikes && target.value == UnitTarget(e)) ==> unchanged(e))
      && (!(strikes && target.value == TowerTarget(enemyTower)) ==> unchanged(enemyTower))
      && var push := if target.None? && old(NearestIndex(hypot, x, y, LiveUnits(enemies), 26.0)).None?
                     then direction * speed * 0.5 * dt else 0.0;
         var dy := old(targetY - y);
         && vx == (old(vx) + push) * 0.9
         && vy == LaneSpring(old(vy), dy, dt)
         && x == old(x) + vx * dt && y == old(y) + vy * dt
         && hitTime == Countdown(old(hitTime), dt)
         && hp == old(hp) && freezeLeft == old(freezeLeft) && targetY == old(targetY)
    }

    /** Combat and movement of a live, unfrozen unit (the part of
        `Unit.update` after the freeze check). */
    method Act(dt: real, enemies: seq<Unit>, enemyTower: Tower, direction: real, hypot: Hypot)
      requires this !in enemies
      modifies this, enemies`hp, enemies`hitTime, enemyTower`hp, enemyTower`wasDamaged
      ensures forall e :: e in enemies ==> e.OnlyHit()
      ensures enemyTower.OnlyHit()
      ensures Acted(dt, enemies, enemyTower, direction, hypot)
    {
      var push := Engage(dt, enemies, enemyTower, direction, hypot);
      Drift(dt, push);
    }

    /** The combat step: count the cooldown down, pick the target, strike it
        when the cooldown has run out, and return the forward push (nonzero
        only when there is no target and no live enemy within 26). */
    method Engage(dt: real, enemies: seq<Unit>, enemyTower: Tower, direction: real, hypot: Hypot)
      returns (push: real)
      requires this !in enemies
      modifies this`cooldownLeft, this`target, enemies`hp, enemies`hitTime, enemyTower`hp, enemyTower`wasDamaged
      ensures forall e :: e in enemies ==> e.OnlyHit()
      ensures enemyTower.OnlyHit()
      ensures target == old(TargetChoice(hypot, x, y, range, LiveUnits(enemies), enemyTower))
      ensures var left := Countdown(old(cooldownLeft), dt);
        if target.Some? && left <= 0.0 then cooldownLeft == cooldown && Struck(target.value, damage)
        else cooldownLeft == left
      ensures var strikes := target.Some? && Countdown(old(cooldownLeft), dt) <= 0.0;
        forall e :: e in enemies && !(strikes && target.value == UnitTarget(e)) ==> unchanged(e)
      ensures var strikes := target.Some? && Countdown(old(cooldownLeft), dt) <= 0.0;
        !(strikes && target.value == TowerTarget(enemyTower)) ==> unchanged(enemyTower)
      ensures push == if target.None? && old(NearestIndex(hypot, x, y, LiveUnits(enemies), 26.0)).None?
                      then direction * speed * 0.5 * dt else 0.0
    {
      // the filter, the target choice and the 26-unit scan read only the
      // enemies and the positions, so they may come before the countdown
      var aliveEnemies := LiveUnits(enemies);
      var t := ChooseTarget(x, y, range, aliveEnemies, enemyTower, hypot);
      var close: Option<nat> := None;
      if t.None? {
        close := NearestInRange(x, y, aliveEnemies, 26.0, hypot);
      }
      cooldownLeft := Countdown(cooldownLeft, dt);
      target := t;
      push := if t.None? && close.None? then direction * speed * 0.5 * dt else 0.0;
      if t.Some? {
        assert t.value.UnitTarget? ==> t.value.unit in aliveEnemies;
        Strike(t.value, enemies, enemyTower);
      }
    }

    /** The strike of a unit with a target: once the cooldown has run out,
        one `applyDamage` on the target, and the cooldown restarts. */
    method Strike(t: Target, enemies: seq<Unit>, enemyTower: Tower)
      requires this !in enemies
      requires t.UnitTarget? ==> t.unit in enemies
      requires t.TowerTarget? ==> t.tower == enemyTower
      modifies this`cooldownLeft, enemies`hp, enemies`hitTime, enemyTower`hp, enemyTower`wasDamaged
      ensures forall e :: e in enemies ==> e.OnlyHit()
      ensures enemyTower.OnlyHit()
      ensures if old(cooldownLeft) <= 0.0 then cooldownLeft == cooldown && Struck(t, damage)
              else cooldownLeft == old(cooldownLeft)
      ensures forall e :: e in enemies && !(old(cooldownLeft) <= 0.0 && t == UnitTarget(e)) ==> unchanged(e)
      ensures !(old(cooldownLeft) <= 0.0 && t == TowerTarget(enemyTower)) ==> unchanged(enemyTower)
    {
      if cooldownLeft <= 0.0 {
        ApplyDamage(t, damage);
        cooldownLeft := cooldown;
      }
    }

    /** The movement step of a tick: `push` is the forward acceleration
        already decided on; then the hit flash fades, drag and the lane
        spring act on the velocity, and the position is integrated. */
    method Drift(dt: real, push: real)
      modifies this`vx, this`vy, this`x, this`y, this`hitTime
      ensures var dy := old(targetY - y);
        && vx == (old(vx) + push) * 0.9
        && vy == LaneSpring(old(vy), dy, dt)
        && x == old(x) + vx * dt && y == old(y) + vy * dt
        && hitTime == Countdown(old(hitTime), dt)
    {
      vx := vx + push;
      hitTime := Countdown(hitTime, dt);
      vx := vx * 0.9;
      var dy := targetY - y;
      vy := vy + Sign(dy) * Min(60.0, Abs(dy)) * 0.05 * dt;
      vy := vy * 0.9;
      x := x + vx * dt;
      y := y + vy * dt;
    }
  }

  // ---------------------------------------------------------------------------
  // Combat helpers

  /** `enemies.filter(e => e.isAlive())`: the live units, in their order. */
  function LiveUnits(s: seq<Unit>): (r: seq<Unit>)
    reads s`hp
    ensures |r| <= |s|
    ensures forall i :: 0 <= i < |r| ==> r[i] in s
  {
    if s == [] then []
    else (if s[0].IsAlive() then [s[0]] else []) + LiveUnits(s[1..])
  }

  /** The filter keeps exactly the live units. */
  lemma {:induction false} LiveUnitsExactlyAlive(s: seq<Unit>)
    ensures forall u :: u in LiveUnits(s) ==> u.hp > 0.0
    ensures forall u :: u in s && u.hp > 0.0 ==> u in LiveUnits(s)
  {
    if s != [] {
      LiveUnitsExactlyAlive(s[1..]);
      assert forall u :: u in s ==> u == s[0] || u in s[1..];
    }
  }

  /** The target a unit at (`sx`, `sy`) with reach `range` settles on, given
      the live enemy units: the first closest of them in range, else the enemy
      tower when it is in range, else nothing. */
  function TargetChoice(hypot: Hypot, sx: real, sy: real, range: real, live: seq<Unit>, enemyTower: Tower): Option<Target>
    reads live
  {
    var near := NearestIndex(hypot, sx, sy, live, range);
    if near.Some? then Some(UnitTarget(live[near.value]))
    else if Dist(hypot, sx, sy, enemyTower.x, enemyTower.y) <= range then Some(TowerTarget(enemyTower))
    else None
  }

  /** `nearestInRange(...) || (dist(...) <= range ? enemyTower : null)`. */
  method ChooseTarget(sx: real, sy: real, range: real, live: seq<Unit>, enemyTower: Tower, hypot: Hypot)
    returns (t: Option<Target>)
    ensures t == TargetChoice(hypot, sx, sy, range, live, enemyTower)
  {
    var near := NearestInRange(sx, sy, live, range, hypot);
    if near.Some? {
      t := Some(UnitTarget(live[near.value]));
    } else if Dist(hypot, sx, sy, enemyTower.x, enemyTower.y) <= range {
      t := Some(TowerTarget(enemyTower));
    } else {
      t := None;
    }
  }

  /** The index `nearestInRange` settles on: scanning left to right, a
      candidate replaces the best so far when it is within `range` and
      strictly closer. */
  function NearestIndex(hypot: Hypot, sx: real, sy: real, cands: seq<Unit>, range: real): (best: Option<nat>)
    reads cands`x, cands`y
    ensures best.Some? ==> best.value < |cands|
  {
    if cands == [] then None
    else
      var n := |cands| - 1;
      var prev := NearestIndex(hypot, sx, sy, cands[..n], range);
      var d := Dist(hypot, sx, sy, cands[n].x, cands[n].y);
      if d <= range && (prev.None? || d < Dist(hypot, sx, sy, cands[prev.value].x, cands[prev.value].y))
      then Some(n) else prev
  }

  /** The scan depends only on where the candidates are. */
  twostate lemma SameSight(hypot: Hypot, sx: real, sy: real, cands: seq<Unit>, range: real)
    requires unchanged(cands`x, cands`y)
    ensures NearestIndex(hypot, sx, sy, cands, range) == old(NearestIndex(hypot, sx, sy, cands, range))
  {
  }

  /** Candidate `k` is within `range`, no candidate within range is strictly
      closer, and every earlier candidate is out of range or strictly farther. */
  ghost predicate IsNearest(hypot: Hypot, sx: real, sy: real, cands: seq<Unit>, range: real, k: nat)
    reads cands
  {
    && k < |cands|
    && Dist(hypot, sx, sy, cands[k].x, cands[k].y) <= range
    && (forall j :: 0 <= j < |cands| && Dist(hypot, sx, sy, cands[j].x, cands[j].y) <= range ==>
          Dist(hypot, sx, sy, cands[k].x, cands[k].y) <= Dist(hypot, sx, sy, cands[j].x, cands[j].y))
    && (forall j :: 0 <= j < k ==>
          Dist(hypot, sx, sy, cands[j].x, cands[j].y) > range
          || Dist(hypot, sx, sy, cands[k].x, cands[k].y) < Dist(hypot, sx, sy, cands[j].x, cands[j].y))
  }

  ghost predicate NoneInRange(hypot: Hypot, sx: real, sy: real, cands: seq<Unit>, range: real)
    reads cands
  {
    forall j :: 0 <= j < |cands| ==> Dist(hypot, sx, sy, cands[j].x, cands[j].y) > range
  }

  /** The scan finds nothing exactly when no candidate is in range, and
      otherwise finds the first of the closest candidates in range. */
  lemma {:induction false} NearestIndexIsNearest(hypot: Hypot, sx: real, sy: real, cands: seq<Unit>, range: real)
    ensures NearestIndex(hypot, sx, sy, cands, range).None? <==> NoneInRange(hypot, sx, sy, cands, range)
    ensures NearestIndex(hypot, sx, sy, cands, range).Some? ==>
      IsNearest(hypot, sx, sy, cands, range, NearestIndex(hypot, sx, sy, cands, range).value)
  {
    if cands != [] {
      var n := |cands| - 1;
      var pre := cands[..n];
      NearestIndexIsNearest(hypot, sx, sy, pre, range);
      assert forall j :: 0 <= j < n ==> pre[j] == cands[j];
    }
  }

  /** `nearestInRange(src, arr, range)`: the index of the first closest
      candidate within `range` of (sx, sy), or None when there is none. */
  method NearestInRange(sx: real, sy: real, cands: seq<Unit>, range: real, hypot: Hypot) returns (best: Option<nat>)
    ensures best == NearestIndex(hypot, sx, sy, cands, range)
    ensures best.None? <==> NoneInRange(hypot, sx, sy, cands, range)
    ensures best.Some? ==> IsNearest(hypot, sx, sy, cands, range, best.value)
  {
    best := None;
    var bestD := 0.0; // stands for Infinity while best is None
    var i := 0;
    while i < |cands|
      invariant 0 <= i <= |cands|
      invariant best == NearestIndex(hypot, sx, sy, cands[..i], range)
      invariant best.Some? ==> best.value < i && bestD == Dist(hypot, sx, sy, cands[best.value].x, cands[best.value].y)
    {
      assert cands[..i + 1][..i] == cands[..i];
      var d := Dist(hypot, sx, sy, cands[i].x, cands[i].y);
      if d <= range && (best.None? || d < bestD) {
        best := Some(i);
        bestD := d;
      }
      i := i + 1;
    }
    assert cands[..i] == cands;
    NearestIndexIsNearest(hypot, sx, sy, cands, range);
  }

  /** No entity appears twice. */
  predicate Distinct<T(==)>(s: seq<T>) {
    forall i, j :: 0 <= i < j < |s| ==> s[i] != s[j]
  }

  /** No entity appears in both. */
  predicate Disjoint<T(==)>(a: seq<T>, b: seq<T>) {
    forall u :: u in a ==> u !in b
  }

  lemma DistinctConcat<T>(a: seq<T>, b: seq<T>)
    requires Distinct(a) && Distinct(b) && Disjoint(a, b)
    ensures Distinct(a + b)
  {
    forall i, j | 0 <= i < j < |a + b|
      ensures (a + b)[i] != (a + b)[j]
    {
      if j < |a| {
      } else if i < |a| {
        assert (a + b)[i] in a && (a + b)[j] in b;
      } else {
        assert (a + b)[i] == b[i - |a|] && (a + b)[j] == b[j - |a|];
      }
    }
  }

  /** The filter keeps distinct units distinct. */
  lemma {:induction false} LiveUnitsDistinct(s: seq<Unit>)
    requires Distinct(s)
    ensures Distinct(LiveUnits(s))
  {
    if s != [] {
      assert Distinct(s[1..]) by {
        forall i, j | 0 <= i < j < |s[1..]| ensures s[1..][i] != s[1..][j] {
          assert s[1..][i] == s[i + 1] && s[1..][j] == s[j + 1];
        }
      }
      LiveUnitsDistinct(s[1..]);
      var rest := LiveUnits(s[1..]);
      assert s[0] !in s[1..] by {
        forall m | 0 <= m < |s[1..]| ensures s[1..][m] != s[0] {
          assert s[1..][m] == s[m + 1];
        }
      }
      if s[0].IsAlive() {
        DistinctConcat([s[0]], rest);
      }
    }
  }

  /** `[...].filter(t => t && t.hp > 0)` on a list of towers. */
  function LiveTowers(s: seq<Tower>): (r: seq<Tower>)
    reads s
    ensures forall i :: 0 <= i < |r| ==> r[i] in s
  {
    if s == [] then []
    else (if s[0].hp > 0.0 then [s[0]] else []) + LiveTowers(s[1..])
  }

  /** The filter keeps exactly the towers still standing. */
  lemma {:induction false} LiveTowersExactlyStanding(s: seq<Tower>)
    ensures forall t :: t in LiveTowers(s) <==> t in s && t.hp > 0.0
  {
    if s != [] {
      LiveTowersExactlyStanding(s[1..]);
      assert forall t :: t in s <==> t == s[0] || t in s[1..];
    }
  }

  /** The filter keeps distinct towers distinct. */
  lemma {:induction false} LiveTowersDistinct(s: seq<Tower>)
    requires Distinct(s)
    ensures Distinct(LiveTowers(s))
  {
    if s != [] {
      assert Distinct(s[1..]) by {
        forall i, j | 0 <= i < j < |s[1..]| ensures s[1..][i] != s[1..][j] {
          assert s[1..][i] == s[i + 1] && s[1..][j] == s[j + 1];
        }
      }
      LiveTowersDistinct(s[1..]);
      assert s[0] !in s[1..] by {
        forall m | 0 <= m < |s[1..]| ensures s[1..][m] != s[0] {
          assert s[1..][m] == s[m + 1];
        }
      }
      if s[0].hp > 0.0 {
        DistinctConcat([s[0]], LiveTowers(s[1..]));
      }
    }
  }

  /** `applyDamage(target, amount)`: hp drops by exactly `amount` with no
      floor; a tower records that it was hit, a unit starts its hit flash. */
  method ApplyDamage(t: Target, amount: real)
    modifies HitUnits(t)`hp, HitUnits(t)`hitTime, HitTowers(t)`hp, HitTowers(t)`wasDamaged
    ensures Struck(t, amount)
    ensures t.UnitTarget? ==> t.unit.OnlyHit()
    ensures t.TowerTarget? ==> t.tower.OnlyHit()
  {
    match t
    case UnitTarget(u) =>
      u.hp := u.hp - amount;
      u.hitTime := 0.2;
    case TowerTarget(tw) =>
      tw.hp := tw.hp - amount;
      tw.wasDamaged := true;
  }
}
