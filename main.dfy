/** The browser front end of src/main.js, restricted to its game logic:
    the deck and the four-card hand, the card rotation after a play, the
    frame-time clamp of the animation loop and the lane a click picks.
    The module-level `let` state of the source is a `Client` object. */
module Frontend {
  import opened Wrappers

  /** A unit card deploys a unit, a spell card casts a spell. */
  datatype CardKind = UnitCard | SpellCard

  datatype Card = Card(key: string, title: string, cost: real, kind: CardKind)

  /** The eight cards of a game, hand first. */
  const Deck: seq<Card> := [
    Card("knight", "Knight", 3.0, UnitCard),
    Card("archer", "Archer", 3.0, UnitCard),
    Card("tank", "Tank", 5.0, UnitCard),
    Card("bomber", "Bomber", 4.0, UnitCard),
    Card("fireball", "Fireball", 4.0, SpellCard),
    Card("freeze", "Freeze", 3.0, SpellCard),
    Card("archer", "Archer", 3.0, UnitCard),
    Card("knight", "Knight", 3.0, UnitCard)
  ]

  /** What a click on the field asks of the game: a unit of card `key` on
      `lane`, or the spell `key` at (x, y) for `cost`. */
  datatype Play = Spawn(lane: string, key: string) | Spell(key: string, x: real, y: real, cost: real)

  /** The hand and the queue after playing hand slot `i`: the head of the
      queue takes the slot and the played card goes to the back of the
      queue. Nothing happens while the queue is empty. */
  function Rotated(hand: seq<Card>, queue: seq<Card>, i: nat): (seq<Card>, seq<Card>)
    requires i < |hand|
  {
    if queue == [] then (hand, queue)
    else (hand[i := queue[0]], queue[1..] + [hand[i]])
  }

  /** A rotation keeps the size of the hand and of the queue, and keeps
      every card: hand and queue together hold the same cards as before. */
  lemma RotationKeepsCards(hand: seq<Card>, queue: seq<Card>, i: nat)
    requires i < |hand|
    ensures var (h, q) := Rotated(hand, queue, i);
      |h| == |hand| && |q| == |queue| && multiset(h + q) == multiset(hand + queue)
    ensures var (h, q) := Rotated(hand, queue, i);
      queue != [] ==> (h[i] == queue[0] && q[|q| - 1] == hand[i]
                       && forall j :: 0 <= j < |hand| && j != i ==> h[j] == hand[j])
  {
    if queue != [] {
      var (h, q) := Rotated(hand, queue, i);
      ReplaceCount(hand, i, queue[0]);
      assert queue == [queue[0]] + queue[1..];
      assert multiset(queue) == multiset{queue[0]} + multiset(queue[1..]);
      assert multiset(q) == multiset(queue[1..]) + multiset{hand[i]};
    }
  }

  /** Overwriting slot `i` swaps one occurrence of the old card for `x`. */
  lemma ReplaceCount<T>(s: seq<T>, i: nat, x: T)
    requires i < |s|
    ensures multiset(s[i := x]) + multiset{s[i]} == multiset(s) + multiset{x}
  {
    assert s == s[..i] + [s[i]] + s[i + 1..];
    assert s[i := x] == s[..i] + [x] + s[i + 1..];
  }

  /** The `dt` the loop hands to the game for a frame at time `ts`, the
      previous frame having been at `last` (0, which the source treats as
      false, marks the first frame). The step never exceeds 0.05 seconds,
      the first frame's step is 0, and the step is never negative when
      time does not run backwards. */
  function FrameDt(last: real, ts: real): (dt: real)
    ensures dt <= 0.05
    ensures last == 0.0 ==> dt == 0.0
    ensures last <= ts ==> dt >= 0.0
    ensures dt == 0.05 || dt * 1000.0 == ts - (if last == 0.0 then ts else last)
  {
    var from := if last == 0.0 then ts else last;
    var step := (ts - from) / 1000.0;
    if step < 0.05 then step else 0.05
  }

  class Client {
    var hand: seq<Card>
    var deckQueue: seq<Card>
    var selectedIndex: nat
    var running: bool
    var lastTimestamp: real

    /** The state before the first game: no cards and nothing running. */
    constructor ()
      ensures hand == [] && deckQueue == [] && selectedIndex == 0 && !running && lastTimestamp == 0.0
      ensures Valid()
    {
      hand := [];
      deckQueue := [];
      selectedIndex := 0;
      running := false;
      lastTimestamp := 0.0;
    }

    /** The selected slot is a slot of the hand, once there is a hand. */
    predicate Valid()
      reads this
    {
      hand == [] || selectedIndex < |hand|
    }

    /** The card and timer part of `start()`: the game runs from a fresh
        clock with the first four deck cards in hand, the other four
        queued, and the first slot selected. */
    method Start()
      modifies this
      ensures Valid() && running && lastTimestamp == 0.0
      ensures hand == Deck[..4] && deckQueue == Deck[4..] && selectedIndex == 0
    {
      running := true;
      lastTimestamp := 0.0;
      hand := Deck[..4];
      deckQueue := Deck[4..];
      selectedIndex := 0;
    }

    /** A click on card `idx` of the hand selects it. */
    method Select(idx: nat)
      requires idx < |hand|
      modifies this`selectedIndex
      ensures selectedIndex == idx && Valid()
    {
      selectedIndex := idx;
    }

    /** `useSelectedCard()`: the selected card is swapped for the head of
        the queue and goes to the back of it; with an empty queue nothing
        changes. Hand size, queue size and the cards held are kept. */
    method UseSelectedCard()
      requires Valid() && selectedIndex < |hand|
      modifies this`hand, this`deckQueue
      ensures Valid()
      ensures (hand, deckQueue) == Rotated(old(hand), old(deckQueue), selectedIndex)
      ensures |hand| == |old(hand)| && |deckQueue| == |old(deckQueue)|
      ensures multiset(hand + deckQueue) == multiset(old(hand) + old(deckQueue))
    {
      RotationKeepsCards(hand, deckQueue, selectedIndex);
      if |deckQueue| == 0 { return; }
      var nextCard := deckQueue[0];
      deckQueue := deckQueue[1..];
      var used := hand[selectedIndex];
      deckQueue := deckQueue + [used];
      hand := hand[selectedIndex := nextCard];
    }

    /** The time step of one pass of `loop(ts)`: none when the game is not
        running; otherwise the clamped step since the previous frame, and
        the frame time is remembered. */
    method Loop(ts: real) returns (dt: Option<real>)
      modifies this`lastTimestamp
      ensures !running ==> dt.None? && lastTimestamp == old(lastTimestamp)
      ensures running ==> dt == Some(FrameDt(old(lastTimestamp), ts)) && lastTimestamp == ts
    {
      if !running { return None; }
      if lastTimestamp == 0.0 {
        lastTimestamp := ts;
      }
      var step := (ts - lastTimestamp) / 1000.0;
      dt := Some(if step < 0.05 then step else 0.05);
      lastTimestamp := ts;
    }

    /** `handleCanvasClick` at canvas point (x, y) of a canvas `height`
        tall: nothing unless the game runs and a card is selected; a unit
        card is deployed on the lane of the click's half, a spell card is
        cast at the click for the card's cost, and in both cases the card
        is rotated out of the hand. */
    method HandleClick(x: real, y: real, height: real) returns (play: Option<Play>)
      requires Valid()
      modifies this`hand, this`deckQueue
      ensures Valid()
      ensures !old(running) || selectedIndex >= |old(hand)| ==>
        play.None? && hand == old(hand) && deckQueue == old(deckQueue)
      ensures old(running) && selectedIndex < |old(hand)| ==>
        && (hand, deckQueue) == Rotated(old(hand), old(deckQueue), selectedIndex)
        && var card := old(hand)[selectedIndex];
           && play.Some?
           && (play.value.Spawn? <==> card.kind == UnitCard)
           && (play.value.Spawn? ==>
                 && play.value.key == card.key
                 && (play.value.lane == "top" || play.value.lane == "bottom")
                 && (play.value.lane == "top" <==> y < height / 2.0))
           && (play.value.Spell? ==> play.value == Spell(card.key, x, y, card.cost))
    {
      if !running { return None; }
      if selectedIndex >= |hand| { return None; }
      var card := hand[selectedIndex];
      if card.kind == UnitCard {
        var lane := if y < height / 2.0 then "top" else "bottom";
        play := Some(Spawn(lane, card.key));
      } else {
        play := Some(Spell(card.key, x, y, card.cost));
      }
      UseSelectedCard();
    }
  }
}
