/**
 * The match against the bot as a mutable object: the opening deal, drawing,
 * playing a card, the bot's move, the player's voluntary draw and win
 * detection each update the fields in place, and each is proved to leave the
 * match exactly as the corresponding function of `Rules` says.
 */
module Game {
  import opened Cards
  import opened Shuffling
  import opened Deck
  import opened Rules

  /**
   * Moves wild cards from the top of the shuffled deck to its bottom, one at a
   * time, until a card of a suit is on top. It stops because the deck holds one.
   */
  method SkipWilds(d0: seq<Card>) returns (d: seq<Card>)
    requires HasPlain(d0)
    ensures d == d0[FirstPlain(d0)..] + d0[..FirstPlain(d0)]
    ensures d[0].color != Wild
  {
    ghost var k := FirstPlain(d0);
    ghost var m := 0;
    d := d0;
    assert d == d0[m..] + d0[..m];
    while |d| > 0 && d[0].color == Wild
      invariant m <= k && d == d0[m..] + d0[..m]
      decreases k - m
    {
      assert d[0] == d0[m];
      d := d[1..] + [d[0]];
      m := m + 1;
      assert d0[..m] == d0[..m - 1] + [d0[m - 1]];
    }
    assert d[0] == d0[m];
  }

  /**
   * The opening deal from the shuffled deck `d0`: wild cards move from the top to
   * the bottom, the first other card starts the discard pile and names the colour,
   * then seven cards go to the player and seven to the bot; the player starts.
   * `fallback` is the colour the game would pick at random were that card wild.
   */
  method DealOut(d0: seq<Card>, fallback: Suit) returns (t: Table)
    requires |d0| == 108 && HasPlain(d0)
    ensures t == Deal(d0)
  {
    var d := SkipWilds(d0);
    var first := d[0];
    d := d[1..];
    var ph := d[..7];
    d := d[7..];
    var bh := d[..7];
    d := d[7..];
    var color := if first.color == Wild then fallback else first.color;
    t := Table(d, [first], ph, bh, Player, color, None);
  }

  /** The init effect of a match: build and shuffle the deck, then deal from it. */
  method Open(rng: Rng, fallback: Suit) returns (t: Table)
    ensures t == Opening(rng) && Rules.Valid(t)
  {
    var d := BuildDeck(rng);
    ShuffledDeck(rng, Red, Num(0));
    t := DealOut(d, fallback);
    OpeningValid(rng);
  }

  class Match {
    var deck: seq<Card>
    var discard: seq<Card>
    var pHand: seq<Card>
    var bHand: seq<Card>
    var turn: Seat
    var currentColor: Color
    var winner: Option<Seat>

    /** The fields as one table. */
    function State(): Table
      reads this
    {
      Table(deck, discard, pHand, bHand, turn, currentColor, winner)
    }

    ghost predicate Valid()
      reads this
    {
      Rules.Valid(State())
    }

    /**
     * The opening deal: build and shuffle the deck, move wild cards from its top
     * to its bottom until another card is on top, turn that card up, deal seven
     * cards to the player and seven to the bot. `fallback` is the colour the game
     * would pick at random were the turned-up card wild, which never happens.
     */
    constructor (rng: Rng, fallback: Suit)
      ensures State() == Opening(rng)
      ensures Valid()
    {
      var t := Open(rng, fallback);
      new;
      Load(t);
    }

    /** Puts the match in the state `t`. */
    method Load(t: Table)
      modifies this
      ensures State() == t
    {
      deck, discard, pHand, bHand := t.deck, t.discard, t.pHand, t.bHand;
      turn, currentColor, winner := t.turn, t.color, t.winner;
    }

    /**
     * `seat` draws `count` cards: when the draw pile is short, the discard pile but
     * its top is shuffled and put under it first; then as many of the requested
     * cards as exist move from the front of the pile to the end of the hand.
     */
    method DrawCard(count: nat, seat: Seat, rng: Rng)
      requires discard != []
      modifies this
      ensures State() == Draw(old(State()), count, seat, rng)
    {
      var pool := deck;
      if |pool| < count {
        var top := discard[|discard| - 1];
        var rest := Shuffle(discard[..|discard| - 1], rng);
        pool := pool + rest;
        discard := [top];
      }
      var n := Min(count, |pool|);
      var drawn := pool[..n];
      pool := pool[n..];
      if seat == Player {
        pHand := pHand + drawn;
      } else {
        bHand := bHand + drawn;
      }
      deck := pool;
    }

    /** Win detection: an empty hand, once the discard pile exists, makes its seat the winner. */
    method DetectWinner()
      modifies this
      ensures State() == Rules.DetectWinner(old(State()))
    {
      if discard != [] {
        if pHand == [] {
          winner := Some(Player);
        }
        if bHand == [] {
          winner := Some(Bot);
        }
      }
    }

    /**
     * `actor` plays the legal `card`; `chosen` is the colour named for a wild card
     * (the player's pick, or the bot's random one). Win detection follows.
     */
    method PlayCard(card: Card, actor: Seat, chosen: Suit, rng: Rng)
      requires Valid() && Legal(State(), card, actor)
      modifies this
      ensures State() == Play(old(State()), card, actor, chosen, rng)
      ensures Valid()
      ensures multiset(All(State())) == multiset(All(old(State())))
    {
      ghost var t := State();
      PutOnPile(card, actor, chosen);
      RunAction(card.value, actor, rng);
      DetectWinner();
      PlayKeepsValid(t, card, actor, chosen, rng);
      HandsUnique(t);
      PlayMovesCard(t, card, actor, chosen, rng);
    }

    /** The card leaves the hand of `actor` for the discard pile and sets the colour. */
    method PutOnPile(card: Card, actor: Seat, chosen: Suit)
      modifies this
      ensures State() == Discard(old(State()), card, actor, chosen)
    {
      var colorToSet: Color := if card.color == Wild then chosen else card.color;
      discard := discard + [card];
      if actor == Player {
        pHand := RemoveId(pHand, card.id);
      } else {
        bHand := RemoveId(bHand, card.id);
      }
      currentColor := colorToSet;
    }

    /** The action of a card of value `v` just played by `actor`. */
    method RunAction(v: Value, actor: Seat, rng: Rng)
      requires discard != []
      modifies this
      ensures State() == Act(old(State()), v, actor, rng)
    {
      match v {
        case Skip => turn := actor;
        case Reverse => turn := actor;
        case Draw2 =>
          DrawCard(2, Other(actor), rng);
          turn := actor;
        case Wild4 =>
          DrawCard(4, Other(actor), rng);
          turn := actor;
        case _ => turn := Other(actor);
      }
    }

    /**
     * The bot's move: nothing out of turn or once the match is decided; otherwise
     * the first playable card of its hand, or else one card drawn and played when
     * it may be, and otherwise the turn passes to the player.
     */
    method BotAct(choice: Suit, drawRng: Rng, playRng: Rng)
      requires Valid()
      modifies this
      ensures State() == Rules.BotAct(old(State()), choice, drawRng, playRng)
      ensures Valid()
      ensures multiset(All(State())) == multiset(All(old(State())))
    {
      if winner.Some? || turn != Bot {
        return;
      }
      ghost var t := State();
      match FirstPlayable(bHand, discard[|discard| - 1], currentColor) {
        case Some(i) =>
          PlayCard(bHand[i], Bot, choice, playRng);
        case None =>
          DrawAndTry(choice, drawRng, playRng);
      }
      BotActConserves(t, choice, drawRng, playRng);
    }

    /**
     * The bot's move without a playable card: it draws one, plays it when it may be
     * played and otherwise passes the turn to the player.
     */
    method DrawAndTry(choice: Suit, drawRng: Rng, playRng: Rng)
      requires Valid() && winner.None? && turn == Bot
      requires FirstPlayable(bHand, discard[|discard| - 1], currentColor).None?
      modifies this
      ensures State() == Rules.BotAct(old(State()), choice, drawRng, playRng)
      ensures Valid()
    {
      ghost var t := State();
      DrawCard(1, Bot, drawRng);
      DrawKeepsValid(t, 1, Bot, drawRng);
      TryDrawn(choice, playRng);
    }

    /** The bot plays the card it has just drawn when it may be played, and otherwise passes the turn. */
    method TryDrawn(choice: Suit, rng: Rng)
      requires Valid() && winner.None? && turn == Bot
      modifies this
      ensures State() == Rules.TryDrawn(old(State()), choice, rng)
      ensures Valid()
    {
      if bHand != [] && CanPlay(bHand[|bHand| - 1], discard[|discard| - 1], currentColor) {
        PlayCard(bHand[|bHand| - 1], Bot, choice, rng);
      } else {
        turn := Player;
      }
    }

    /** The draw button: on the player's turn in an undecided match, one card, then the bot's turn. */
    method OnDraw(rng: Rng)
      requires Valid()
      modifies this
      ensures State() == Rules.OnDraw(old(State()), rng)
      ensures Valid()
      ensures multiset(All(State())) == multiset(All(old(State())))
    {
      OnDrawEffect(State(), rng);
      if turn != Player || winner.Some? {
        return;
      }
      ghost var t := State();
      DrawCard(1, Player, rng);
      DrawKeepsValid(t, 1, Player, rng);
      turn := Bot;
    }
  }
}
