# Mini-game battle core in Dafny

This project models the core of Mini-game, a two-lane tower-defence card
battle, and proves properties of that model.

In the game, two sides each hold elixir, three towers and two lanes of units:
- elixir regenerates over time, is capped at 10, and pays for cards;
- the three towers are a dormant king and two flank towers;
- units walk their lane, fight the nearest foe in reach and siege the opposing lane tower.

Spells hit an area. A fireball burns, and a freeze stops units and towers.

The game is won by downing the opposing king. A computer opponent plays side 1, and the browser front end keeps the player's hand of four cards. A small Python WebSocket server frames text messages for multiplayer games.

The model has these modules:

- `Entities` (entities.dfy) covers towers and units, the unit catalogue, target selection (`nearestInRange`) and `applyDamage`. `Tower` and `Unit` are classes, because the game updates their fields in place.
- `Sides` (sides.dfy) covers one side's record: elixir, towers and lanes.
- `Spells` (spells.dfy) covers `fireball` and `freeze`, and the effect each one leaves.
- `Battle` (game.dfy) covers the `Game` class, with three operations:
  - spawning a unit and casting a spell, each guarded by elixir;
  - a tick of `update`: elixir, unit actions, collision physics, tower fire, the king-wake rule, removal of dead units, effect ageing and game-over;
  - the helpers `updateLane`, `resolvePhysicsLane`, `cleanup` and `handleKingWake`.
- `Opponent` (ai.dfy) covers the controller's timer, `pickCard`, `pickLane` and `pickSpellTarget`.
- `Frontend` (main.dfy) covers four parts of the front end:
  - the deck;
  - the hand set up by `start`;
  - the card rotation of `useSelectedCard`;
  - the frame-time clamp of `loop` and the lane a click picks.
- `WsFraming` (ws_server.dfy) covers `send_text` and `read_frame` over byte sequences (sections 5.2 and 5.3 of RFC 6455). It decodes on a `Conn` whose `recv(n)` hands out the next min(n, remaining) bytes, so a read comes up short only at the end of the stream.
- `WsHeaders` (ws_headers.dfy) covers `parse_headers` on the decoded request text.
- `Wrappers` (wrappers.dfy) holds the `Option` type.

Some conventions hold throughout:
- `Math.hypot` is a function-typed parameter that the model never interprets. Every targeting, spell and physics property holds for any distance function.
- `Math.random()` draws are parameters in [0, 1).
- Positions, hp, elixir and timers are `real`.
- Python bytes are `Byte = x: int | 0 <= x < 256`. The bit operations of the frame code are written arithmetically:
  - `b & 0x0F` is `b % 16`;
  - `b & 0x7F` is `b % 128`;
  - `b & 0x80 != 0` is `b >= 128`;
  - `0x80 | l` for l < 128 is `128 + l`;
  - `^` is bitwise XOR on 8 bits (`XorBits`).

Three helpers compute in an order that differs from the source. The result is the same, because the parts that change places read and write disjoint state:
- `Battle.Game.Spend` charges the caster after the spell has landed. The spell touches only the opposing side's units and towers.
- `Entities.Unit.Engage` filters the enemies, chooses the target and scans the 26-unit radius before counting the cooldown down. None of these reads the cooldown.
- `Battle.Game.Update` removes dead units after the effects have aged and game-over has been checked. Removal touches only the lanes, and neither of the other two steps reads them.

In three places the code differs from the game's written description, and the model follows the code:
- A tower's `update` aims at the nearest candidate in range among *all* units of the lane, including units that died earlier in the same tick. It does not pick only live ones.
- Elixir is only capped at 10 (`Math.min(10, ...)`). It stays non-negative only because the rate and the time step are non-negative (`Battle.Regen`).
- `cooldownLeft` may fall below 0 (`if (t > 0) t -= dt`). It is not a non-negative countdown.

A unit also aims at the opposing lane tower even when that tower's hp is at or below 0, because there is no liveness check there.

## Model

| member | source | states |
|---|---|---|
| Entities.UnitSpecOf | src/entities.js:103-109 | costs are knight 3, archer 3, tank 5, bomber 4, and 3 for any other key; exactly the four known keys carry a mass; an unknown key gets the fallback hp 300, damage 18, range 28; every stat is positive |
| Entities.Tower.constructor | src/entities.js:2-21 | every `spec.x \|\| d` default (w 40, h 80, hp 2000, range 160, damage 30, cooldown 0.9), maxHp equal to hp, `active` defaulting to true, all timers 0 |
| Entities.Tower.Update | src/entities.js:22-43 | a tower with hp <= 0 or inactive changes nothing; otherwise an active boost counts down and gives 1.25x damage and 0.85x cooldown, else the base values; a frozen tower only loses dt of freeze and hits nobody; an unfrozen one counts down and, with a candidate in range and the cooldown run out, hits exactly the nearest candidate for `damage` and restarts the cooldown, every other unit unchanged; the new state is `Next` of the old one, a candidate counting as found when one was in range, and of the candidates exactly its `Victim` lost the new damage and flashes while every other kept its hp and hit flash |
| Entities.Tower.Victim | src/entities.js:22-43 | a tower shoots only when it is standing, active and unfrozen, and then exactly when there is a nearest candidate in range and the counted-down cooldown has run out; the one it shoots is that nearest candidate, and shooting restarts the cooldown |
| Entities.Tower.Next | src/entities.js:22-43 | one tick never changes a tower's hp, active flag, damage mark or wake duration; a fallen or dormant tower keeps its whole state; an active one has 1.25x damage and 0.85x cooldown exactly while its boost lasts, else the base values; a frozen tower's cooldown does not move; without a candidate the cooldown is never restarted |
| Entities.Tower.Enrage | src/entities.js:25-32 | the boost counts down while it lasts, with damage x1.25 and cooldown x0.85; otherwise the base values |
| Entities.Tower.Fire | src/entities.js:37-42 | the cooldown counts down; exactly the nearest candidate is struck once it has run out, and the cooldown restarts; no one is touched otherwise |
| Entities.Unit.constructor | src/entities.js:47-67 | the stats come from the spec; radius 12; all timers 0; no target; mass `spec.mass \|\| 1`; targetY equal to the spawn y |
| Entities.Unit.Update | src/entities.js:71-100 | a dead unit changes nothing, itself or others; a frozen unit only loses dt of freeze (position, velocity, cooldown, target and hit flash kept, no one hit); otherwise the unit does what `Acted` describes; its own hp and targetY never change, and enemies and the tower are only hit; its motion goes from the old to the new as `Stepped` says, and its hit flash fades by dt exactly when it was alive and not frozen |
| Entities.Unit.Act | src/entities.js:77-99 | the combat step and the movement step, composed: the target is the choice over the live enemies, at most that target is struck, and the forward push feeds the drift |
| Entities.Unit.Engage | src/entities.js:77-92 | the target is the nearest live enemy in range, else the enemy tower when it is in range; a strike happens only with a target and the cooldown run out, and then restarts it; everything but the struck target is unchanged; the forward push `direction*speed*0.5*dt` is applied only with no target and no live enemy within 26 |
| Entities.Unit.Strike | src/entities.js:82-85 | with the cooldown run out, one `applyDamage(t, damage)` and a cooldown restart; otherwise nothing changes |
| Entities.Unit.Drift | src/entities.js:93-99 | the hit flash fades, vx gets the push and drag 0.9, vy gets the lane spring `sign(dy)*min(60,\|dy\|)*0.05*dt` and drag, and the position integrates the new velocity |
| Entities.ChooseTarget | src/entities.js:79 | the result equals `TargetChoice`: the nearest live unit in range, else the tower if in range, else none |
| Entities.NearestInRange | src/entities.js:157-168 | none exactly when no candidate is within range; otherwise a candidate within range that no candidate in range is strictly closer than, and every earlier candidate is out of range or strictly farther (the first minimum wins) |
| Entities.NearestIndexIsNearest | src/entities.js:157-168 | the same two facts for the reference scan `NearestIndex`, by induction over the candidates |
| Entities.LiveUnitsExactlyAlive | src/entities.js:78 | `filter(e => e.isAlive())` keeps exactly the units with hp > 0 |
| Entities.LiveUnitsDistinct | src/entities.js:78 | filtering keeps a lane free of repeats |
| Entities.LiveTowersExactlyStanding | src/spells.js:19 | `filter(t => t && t.hp > 0)` keeps exactly the towers with hp > 0 |
| Entities.LiveTowersDistinct | src/spells.js:19 | the tower filter keeps the towers distinct |
| Entities.ApplyDamage | src/entities.js:170-174 | hp drops by exactly `amount` with no floor; a tower is marked damaged, a unit's hit flash is set to 0.2; nothing else changes |
| Sides.Side.constructor | src/game.js:11-28 | elixir 5 and empty lanes; `Mustered`: the king (hp and maxHp 2400, damage 35, range 170) at the king x and half height, dormant; the flank towers (hp 1400, damage 25, range 150) at the flank x and a quarter and three quarters of the height, active; three distinct towers |
| Sides.Side.Enlist | src/game.js:48-52 | `push` onto the chosen lane only, keeping every unit in at most one lane |
| Sides.Side.AllUnitsDistinct | src/spells.js:10 | the concatenated lanes and the three towers contain no repeats |
| Spells.Fireball | src/spells.js:5-30 | every live opposing unit within 60 loses exactly 180 hp once and flashes, and every other unit is unchanged; every standing opposing tower within 60 loses exactly 120 hp and is marked damaged, and every other tower is unchanged; the effect is `fireball`, r 60, time 0.35 |
| Spells.BurnUnits | src/spells.js:11-18 | the unit loop: exactly the live units in the blast lose 180 once |
| Spells.BurnTowers | src/spells.js:19-26 | the tower loop over the standing towers: exactly the standing towers in the blast lose 120 once |
| Spells.Freeze | src/spells.js:32-55 | every opposing unit within 80, dead or alive, and every standing opposing tower within 80 gets freeze max(old, 2.5); nothing else changes, so no hp changes; the effect is `freeze`, r 80, time 2.5 |
| Spells.ChillUnits | src/spells.js:37-43 | the unit loop of `freeze`: freeze max(old, 2.5) inside the blast, unchanged outside |
| Spells.ChillTowers | src/spells.js:44-51 | the tower loop of `freeze`: only standing towers in the blast are frozen |
| Battle.Regen | src/game.js:65-66 | elixir after regeneration is at most 10; it is non-negative for non-negative elixir, rate and dt; below the cap it is exactly elixir + rate*dt, and from a full bar it stays 10 |
| Battle.Clamp | src/game.js:215-216 | `max(lo, min(hi, v))` is at least lo, at most hi when lo <= hi, and v itself when v is in range |
| Battle.UpdateLane | src/game.js:137-141 | for a lane free of repeats and apart from its foes, every unit of the lane moves as `Stepped` says for whether it was alive at the start (a dead or frozen unit stays put, any other gets its lane spring, drag and at most the forward push, and integrates), its cooldown and freeze count down as `Timed` says, and its hit flash fades exactly when it was alive and not frozen; no unit of the lane loses hp or changes targetY; foes and the opposing tower are only hit |
| Battle.Game.AdvanceUnits | src/game.js:69-72 | after the four `updateLane` calls every player unit has stepped forward (+1) as `Stepped` says for whether it was alive at the start, and every enemy unit backward (-1) for whether it is alive at the end, which is when it acted, since after its own lane's turn nothing hits it |
| Battle.Game.ClashLane | src/game.js:69-72 | the two `updateLane` calls of one lane: the player's units step forward for whether they were alive at the start, the enemy's backward for whether they are alive at the end |
| Battle.FireFrom | src/entities.js:22-43 | one tower update from a given start state and nearest candidate: the tower ends in `Next` of that state, and of the candidates exactly its `Victim` lost the new damage and flashes, every other unit keeping its hp and hit flash |
| Battle.FirePair | src/game.js:77-80 | two tower updates in turn, on distinct towers against lanes that share no unit (a side's two lane towers): each tower ends in `Next` of its own start state and hits exactly its `Victim`, as if it had gone first, and no other unit of either lane loses hp or flashes |
| Battle.FireKings | src/game.js:81-82 | each king, fired at the concatenation of both opposing lanes, top first, ends in `Next` of its start state and hits exactly its `Victim` of that concatenation, with a candidate found exactly when one was in range at the start |
| Battle.Game.FireTowers | src/game.js:77-82 | the six tower updates of a tick in the source's order, lane towers first, then the two kings; they add, remove or move no unit between lanes, so the game stays valid |
| Battle.SeparatePair | src/game.js:147-181 | two units of one side that do not overlap (distance at least r+r+4) are left unchanged; only velocities can change |
| Battle.RepelPair | src/game.js:185-200 | a unit and a foe that do not overlap are left unchanged; only velocities can change |
| Battle.Constrain | src/game.js:203-217 | afterwards 140 <= x <= w-140 (for w >= 280) and targetY-26 <= y <= targetY+26; a unit already within bounds keeps its position |
| Battle.ResolvePhysicsLane | src/game.js:143-218 | every unit of `us` ends in bounds; foes change only in velocity, and the lanes themselves (their order and length) are not touched |
| Battle.HandleKingWake | src/game.js:304-318 | a king with hp <= 0, already active, or not due is untouched; a standing dormant king whose flanks are both down or that was hit becomes active with boost max(old, 10) and duration 10; `active` is never reset |
| Battle.Cleanup | src/game.js:220-226 | the backwards splice loop leaves exactly the live units, in their order |
| Battle.CleanupStep | src/game.js:222-224 | one iteration of the loop extends the filtered suffix by one position |
| Battle.LiveUnitsConcat | src/game.js:220-226 | filtering distributes over concatenation |
| Battle.Pruned | src/game.js:89-92 | at most as many effects as before, each with time > 0 |
| Battle.PrunedExactly | src/game.js:89-92 | an effect survives exactly when it had more than dt left, and then it has dt less and is otherwise unchanged |
| Battle.PruneEffects | src/game.js:89-92 | the backwards splice loop over the effects gives exactly `Pruned` |
| Battle.Game.constructor | src/game.js:8-36 | both sides `Mustered` with 5 elixir: the king at x 120 (player) or width-120 (enemy) and half height, hp and maxHp 2400, damage 35, range 170, dormant; the flank towers at x 160 or width-160 and a quarter and three quarters of the height, hp 1400, damage 25, range 150, active; no units, no effects, not over, no winner |
| Battle.Game.SpawnUnit | src/game.js:37-54 | when over, or when the side cannot pay `unitSpec(key).cost`, nothing changes; otherwise elixir drops by exactly the cost, and one new unit joins the back of the chosen lane (the other lane unchanged) at x = 190 or width-190, with y within 6 of the lane centre and targetY the lane centre |
| Battle.Game.CastSpell | src/game.js:55-62 | when over, or when the side cannot pay, nothing changes; otherwise elixir drops by exactly `cost`, a fireball or freeze lands on the opposing side and appends its one effect, and any other key changes nothing else |
| Battle.Game.Spend | src/game.js:59-61 | the paid part of a cast: elixir minus cost, then the spell's effects appended and its damage landed on the opponent |
| Battle.LandSpell | src/game.js:60-61 | dispatch on the key: fireball burns, freeze chills, anything else leaves the opponent as it was and adds no effect |
| Battle.SpellEffects | src/spells.js:27 | exactly one effect for `fireball` or `freeze`, of that kind at (x, y), and none otherwise |
| Battle.Game.Update | src/game.js:63-98 | when over, nothing changes; otherwise elixir is regenerated on both sides; every lane keeps exactly its live units in order, all in bounds; the effects are exactly `Pruned`; kings are active exactly when active before or now due and standing; `over` holds exactly when a king has hp <= 0, and the winner is 1 when the player's king fell (also when both fell), else 0 |
| Battle.Game.Clash | src/game.js:69-84 | after the unit ticks, physics, tower fire and the wake rule, every unit is in bounds and each king's `active` is its old value or, when standing, whether its wake is due |
| Battle.Game.ResolvePhysics | src/game.js:73-76 | the four physics passes leave every unit of every lane in bounds |
| Battle.Game.Finish | src/game.js:85-97 | lanes swept to their live units, effects pruned, and game-over with winner 1 exactly when the player's king has fallen |
| Battle.Game.Sweep | src/game.js:85-88 | the four `cleanup` calls keep each lane's live units in order; lanes stay free of repeats and apart |
| Battle.Swept | src/game.js:85-88 | sweeping lanes that are free of repeats, apart and in bounds gives lanes that are still free of repeats and apart, and hold only live units in bounds |
| Battle.LiveUnitsFielded | src/game.js:85-88 | after the filter, every unit left is alive and still in bounds |
| Opponent.Index | src/ai.js:59 | `Math.floor(r * n)` for r in [0, 1) is a valid index into n options |
| Opponent.SpellLane | src/ai.js:64-67 | the lane aimed at is one of the player's two lanes, the longer one, and top on a tie |
| Opponent.AIController.constructor | src/ai.js:4-9 | timer 0, interval 2.5, the six cards and the spell prices 4 and 3 |
| Opponent.AIController.UnitOptions | src/ai.js:50 | a card is offered exactly when it is a held unit card that the opponent can pay for |
| Opponent.AIController.SpellOptions | src/ai.js:51 | a card is offered exactly when it is a held spell card that the opponent can pay for, against at least two player units |
| Opponent.AIController.CounterPick | src/ai.js:32-47 | a counter-pick is a held, affordable card; bomber or freeze only against a tank (maxHp >= 900), fireball only against three or more units with elixir >= 4, knight only against an archer (range > 100) |
| Opponent.AIController.DefaultPick | src/ai.js:50-59 | the pick is held and affordable; nothing exactly when elixir < 3; a tank from 8 elixir up; a spell only against two or more units |
| Opponent.AIController.PickCard | src/ai.js:27-60 | every card picked is held and costs at most the current elixir; nothing below 3 elixir; a tank from 8 elixir up when no counter-pick fires; a default-path spell only against two or more units; a counter-pick, when it fires, is the answer |
| Opponent.AIController.PickLane | src/ai.js:77-95 | the lane is top or bottom; with only one flank down, the other flank's lane; with both flanks up and more than 200 hp apart, the weaker one's lane; otherwise top exactly when top pressure < bottom pressure |
| Opponent.AIController.PickSpellTarget | src/ai.js:61-76 | none exactly when the player has no unit; otherwise the centroid of the fuller lane (top on a tie), which is never empty |
| Opponent.AIController.Update | src/ai.js:10-26 | when over, nothing happens; otherwise the timer drops by dt, and once it has run out it restarts within [2, 4); an order is given only then, and it is the picked spell at its price aimed at the spell target (dropped when there is none), or the picked unit on `PickLane`'s lane |
| Frontend.RotationKeepsCards | src/main.js:228-235 | a rotation keeps the sizes of hand and queue and the multiset of all cards; with a non-empty queue the slot gets the queue's head, the used card goes to the back, and the other slots are unchanged |
| Frontend.Client.UseSelectedCard | src/main.js:228-235 | nothing changes with an empty queue; otherwise the rotation is performed in place; sizes and cards are kept |
| Frontend.Client.Start | src/main.js:161-167 | the game runs from a fresh clock with the first four deck cards in hand, the last four queued and slot 0 selected |
| Frontend.Client.Select | src/main.js:71-74 | clicking a card of the hand selects that slot |
| Frontend.FrameDt | src/main.js:112-113 | the step handed to the game is at most 0.05 s, 0 on the first frame, non-negative when time does not run backwards, and otherwise the elapsed time in seconds |
| Frontend.Client.Loop | src/main.js:110-114 | no step when the game is not running; otherwise `FrameDt` since the last frame, and the frame time is remembered |
| Frontend.Client.HandleClick | src/main.js:91-108 | nothing unless running with a card selected; a unit card spawns its own key on the top or the bottom lane, the top one exactly when the click is in the upper half; a spell is cast at the click for the card's cost; in both cases the card is rotated out |
| WsFraming.XorTwice | ws_server.py:61-62 | XOR with the same mask byte twice gives the byte back |
| WsFraming.XorBitsTwice | ws_server.py:61-62 | the same for k-bit numbers, by induction over the bits |
| WsFraming.BigEndianRoundTrip | ws_server.py:50-53 | `int.from_bytes(n.to_bytes(k, "big"), "big") == n` |
| WsFraming.LengthField | ws_server.py:69-77 | the length field is 1 byte up to 125, 3 bytes up to 65535 and 9 bytes beyond |
| WsFraming.SendText | ws_server.py:65-78 | the frame is header + payload with first byte 0x81 and mask bit 0; the header is 2, 4 or 10 bytes for payloads of at most 125, at most 65535 or more bytes |
| WsFraming.UnmaskTwice | ws_server.py:61-62 | `Unmask` (byte i XOR `mask[i % 4]`) is an involution for a 4-byte key: unmasking twice gives the payload back |
| WsFraming.LengthFieldRoundTrip | ws_server.py:44-53 | reading the second byte and the extended length gives back the mask flag and the length encoded, and leaves the rest unread |
| WsFraming.HeaderRoundTrip | ws_server.py:41-53 | after a first byte and a length field, the decoder continues with the first byte's opcode (`b1 & 0x0F`), the mask flag and the length |
| WsFraming.TextFrameRoundTrip | ws_server.py:40-78 | reading a frame written by `send_text` gives opcode 1 and exactly the bytes sent, and leaves what follows unread |
| WsFraming.MaskedFrameRoundTrip | ws_server.py:40-63 | reading a masked client frame gives its opcode and the payload before masking, and leaves what follows unread |
| WsFraming.MaskedBody | ws_server.py:54-62 | after the header, the 4-byte key and a masked payload read back as the unmasked payload |
| WsFraming.Conn.Recv | ws_server.py:41 | `recv(n)` gives the next min(n, remaining) bytes and consumes them |
| WsFraming.ReadFrame | ws_server.py:40-63 | result and unread bytes are those of `DecodeFrame`: closed on an empty read, a failure on a one-byte header, otherwise the opcode and the payload, unmasked when a key was read |
| WsFraming.ReadPayload | ws_server.py:55-60 | the `while` loop reads exactly the next min(length, remaining) bytes |
| WsHeaders.SplitLines | ws_server.py:22 | the pieces of `split("\r\n")` glue back to the text with "\r\n", none contains "\r\n", and the first is a prefix of the text |
| WsHeaders.Strip | ws_server.py:26-27 | `strip()` keeps the slice from the first non-space to the last non-space, with everything cut off white space |
| WsHeaders.Lower | ws_server.py:27 | the same length, each 'A'-'Z' lowered, everything else kept, and no upper-case ASCII left |
| WsHeaders.FirstColon | ws_server.py:26 | the index of the first ':' of the line |
| WsHeaders.HeadersStep | ws_server.py:24-27 | one more line adds its entry when it has a ':' and is skipped otherwise |
| WsHeaders.HeadersLastWins | ws_server.py:24-27 | a line with a ':' that no later line of the same name overrides gives the entry for its stripped, lower-cased name, with its stripped value |
| WsHeaders.HeadersFromLines | ws_server.py:24-27 | every entry of the dictionary comes from some line with a ':' |
| WsHeaders.ParseHeaders | ws_server.py:21-28 | the first line is returned as it stands, and the dictionary is the fold of `Headers` over the lines after it |

## Left out

- Drawing, sound, sprites, particles and the DOM (`draw`, `drawLanes`, `drawEffect`, `drawKingAura`, `makeBackground`, `drawTower`, `drawUnit`, `drawHpBar`, `buildCards`, `updateUI`, the event listeners and `setupMultiplayer`) are left out. They touch nothing the simulation reads.
- Networking is left out: src/net.js, and `recv_line`, `send_handshake`, the client threads and the room bookkeeping of ws_server.py. So is the cryptography: token signing, HMAC and SHA-1. All of these are socket, thread or library calls.
- The balance harness src/tests.js is left out. It runs random games and checks nothing.
- `Math.hypot` is left uninterpreted. The model does not capture floating-point rounding, and it states physics only as post-clamp bounds and frames, not as trajectories.
- Battle.SeparatePair: its contract states only that a pair which does not overlap is untouched and that only velocities change. The body performs the source's impulses, but no contract states their values.
- Battle.RepelPair: the same as SeparatePair, for the push between a unit and a foe.
- Battle.UpdateLane: `Stepped` gives vx as one of two values, with or without the forward push, and `Timed` gives the cooldown as counted down or restarted. Which one applies depends on the target choice, and `Entities.Unit.Engage` states that choice per unit; lane-wide, which enemy a unit chooses and how much damage it deals are not restated.
- Battle.Game.AdvanceUnits: does not state the hit flash, which other units and the tower may still change after a unit's own tick.
- Battle.Game.ClashLane: states only each unit's motion and timers (`Stepped`). The hit flash, the targets chosen, and the hp that the units of both lanes and the two lane towers lose are not stated, because after the second `updateLane` neither lane's hp or hit flash can be written in terms of the state before the first.
- Battle.Game.Clash: states the bounds and the wake rule only. What the units and towers do in a tick is stated by `AdvanceUnits`, `FirePair` and `FireKings` and not carried through to Clash, because physics and tower fire change it afterwards and the carried facts put the proof over the solver's budget.
- Battle.Game.FireTowers: states only that the lanes stay valid. What each tower does and whom it hits is the contract of the `FirePair` and `FireKings` calls it makes, each relative to the state at that call. The calls are not combined into one statement about the whole volley: the kings hit the same units after the lane towers, so their hits cannot be stated against the state before the volley, and combining even the four lane towers' facts puts the proof over the solver's budget.
- Opponent.AIController.Update: returns the order instead of calling `game.castSpell(1, …)` or `game.spawnUnit(1, …)`. The caller hands the order to `Battle.Game.CastSpell` or `Battle.Game.SpawnUnit`, whose contracts describe the effect.
- Frontend.Client.HandleClick: returns the play instead of calling the game, and does not model the multiplayer `net.send` or the canvas-to-client coordinate conversion. The coordinates are parameters.
- Frontend.Client.Loop: returns the time step. It does not call `game.update`, `ai.update` or `draw`, and does not stop on game-over, because those are calls into the other modules and the DOM.
- Frontend.Client.Start: models only the card and clock part of `start`. The creation of `Game` and `AIController` is their constructors, and the multiplayer and audio set-up are left out.
- WsFraming.SendText: takes the UTF-8 bytes of the text (`text.encode()` is not modelled), and requires a length below 2^64. At or above 2^64, `to_bytes(8, "big")` raises OverflowError.
- WsFraming.ReadFrame: the IndexError the source raises on a one-byte header is the `Failed` result. A short read of the extended length, or of the key, at the end of the stream decodes what was read, as `int.from_bytes` and `recv` do.
- WsFraming.Conn.Recv: a socket's `recv(n)` may also return fewer than n bytes in the middle of the stream, and the model does not capture that. The source then fails in three ways the model cannot reach: a one-byte `recv(2)` raises IndexError at `h[1]` (ws_server.py:44); a short extended-length read decodes a wrong length (ws_server.py:50, ws_server.py:53); and a 1-3 byte key followed by payload raises IndexError in the unmasking (ws_server.py:62). `DecodeBody`'s empty payload under a short key holds only because a short key read ends the stream.
- WsHeaders.ParseHeaders: works on the text after decoding, so the lossy UTF-8 `decode(errors="ignore")` is not modelled.
- WsHeaders.Lower: lowers only ASCII letters, where Python's `str.lower` also folds other Unicode letters.
- WsHeaders.Strip: white space is the character set of Python's `str.isspace`, given as code-point ranges.
- `pickSpellTarget`'s `if (n === 0) return null` cannot fire, because the lane it sums is never empty. The model proves the lane non-empty (`Opponent.AIController.PickSpellTarget`) instead of keeping that branch.
