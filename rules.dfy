/**
 * The rules of a match as functions on a snapshot of the table: drawing with
 * reshuffle, playing a card, the bot's turn, the player's voluntary draw, win
 * detection and the opening deal. The class `Game.Match` performs the same
 * steps in place and is proved to agree with these functions.
 */
module Rules {
  import opened Cards
  import opened Shuffling
  import opened Deck

  /** Everything a match keeps: draw pile, discard pile (top is last), both hands, turn, colour, winner. */
  datatype Table = Table(
    deck: seq<Card>,
    discard: seq<Card>,
    pHand: seq<Card>,
    bHand: seq<Card>,
    turn: Seat,
    color: Color,
    winner: Option<Seat>)

  function All(t: Table): seq<Card> {
    t.deck + t.discard + t.pHand + t.bHand
  }

  function Hand(t: Table, s: Seat): seq<Card> {
    if s == Player then t.pHand else t.bHand
  }

  function WithHand(t: Table, s: Seat, h: seq<Card>): (r: Table)
    ensures Hand(r, s) == h && Hand(r, Other(s)) == Hand(t, Other(s))
  {
    if s == Player then t.(pHand := h) else t.(bHand := h)
  }

  function Top(t: Table): Card
    requires t.discard != []
  {
    t.discard[|t.discard| - 1]
  }

  function Min(a: int, b: int): int {
    if a <= b then a else b
  }

  /**
   * The invariant of every match: 108 cards with distinct identifiers on the
   * table, a discard pile that is never empty, a suit colour to match, and
   * while nobody has won, cards in both hands.
   */
  ghost predicate Valid(t: Table) {
    && Intact(t)
    && (t.winner.None? ==> t.pHand != [] && t.bHand != [])
  }

  /** The part of the invariant that holds between the steps of a play, before win detection. */
  ghost predicate Intact(t: Table) {
    && |All(t)| == 108
    && UniqueIds(All(t))
    && t.discard != []
    && t.color != Wild
  }

  /** Identifiers are unique within each hand. */
  lemma HandsUnique(t: Table)
    requires UniqueIds(All(t))
    ensures UniqueIds(t.pHand) && UniqueIds(t.bHand)
  {
    var a := All(t);
    var p := |t.deck| + |t.discard|;
    assert a[p..p + |t.pHand|] == t.pHand;
    assert a[p + |t.pHand|..] == t.bHand;
    UniqueIdsSlice(a, p, p + |t.pHand|);
    UniqueIdsSlice(a, p + |t.pHand|, |a|);
  }

  /** A step that only moves cards around the table keeps the card count and the unique identifiers. */
  lemma Rearranged(t: Table, r: Table)
    requires Intact(t) && multiset(All(r)) == multiset(All(t))
    ensures |All(r)| == 108 && UniqueIds(All(r))
  {
    assert |multiset(All(r))| == |multiset(All(t))|;
    PermutationKeepsUniqueIds(All(r), All(t));
  }

  // ---- drawing ----

  /** The pile a draw takes its cards from: the draw pile, with the shuffled discard pile but its top under it when the draw pile is short. */
  function Pool(t: Table, count: nat, rng: Rng): seq<Card>
    requires t.discard != []
  {
    if |t.deck| < count then t.deck + Shuffled(t.discard[..|t.discard| - 1], rng) else t.deck
  }

  /**
   * `seat` draws `count` cards. When the draw pile is short, the discard pile
   * except its top is shuffled and put under the draw pile first; then as many
   * of the requested cards as exist are moved, from the front of the pile to
   * the end of the hand.
   */
  function Draw(t: Table, count: nat, seat: Seat, rng: Rng): Table
    requires t.discard != []
  {
    var pool := Pool(t, count, rng);
    var n := Min(count, |pool|);
    WithHand(t.(deck := pool[n..], discard := if |t.deck| < count then [Top(t)] else t.discard),
             seat, Hand(t, seat) + pool[..n])
  }

  /** With enough cards in the draw pile, its first `count` cards go to the end of the hand. */
  lemma DrawFromPile(t: Table, count: nat, seat: Seat, rng: Rng)
    requires t.discard != [] && count <= |t.deck|
    ensures Hand(Draw(t, count, seat, rng), seat) == Hand(t, seat) + t.deck[..count]
    ensures Draw(t, count, seat, rng).deck == t.deck[count..]
    ensures Draw(t, count, seat, rng).discard == t.discard
  {
  }

  /** Moving the first `n` cards of a pile to the end of a hand keeps the cards of both together. */
  lemma TakeFront(h: seq<Card>, pool: seq<Card>, n: nat)
    requires n <= |pool|
    ensures multiset(h + pool[..n]) + multiset(pool[n..]) == multiset(h) + multiset(pool)
    ensures (h + pool[..n])[..|h|] == h
  {
    assert pool == pool[..n] + pool[n..];
  }

  /** The pool together with what is left of the discard pile holds the cards of both piles. */
  lemma PoolKeeps(t: Table, count: nat, rng: Rng)
    requires t.discard != []
    ensures multiset(Pool(t, count, rng)) + multiset(Draw(t, count, Bot, rng).discard)
         == multiset(t.deck) + multiset(t.discard)
    ensures |Pool(t, count, rng)| == if |t.deck| < count then |t.deck| + |t.discard| - 1 else |t.deck|
    ensures |t.deck| <= |Pool(t, count, rng)| && Pool(t, count, rng)[..|t.deck|] == t.deck
  {
    var rest := t.discard[..|t.discard| - 1];
    ShufflePermutes(rest, rng);
    if |t.deck| < count {
      assert t.discard == rest + [Top(t)];
      var sh := Shuffled(rest, rng);
      assert multiset(t.deck + sh) == multiset(t.deck) + multiset(sh);
      assert (t.deck + sh)[..|t.deck|] == t.deck;
    }
  }

  /**
   * With too few cards in the draw pile, the discard pile shrinks to its top and the
   * hand receives the whole old draw pile followed by cards of the shuffled rest.
   */
  lemma DrawWithReshuffle(t: Table, count: nat, seat: Seat, rng: Rng)
    requires t.discard != [] && |t.deck| < count
    ensures Draw(t, count, seat, rng).discard == [Top(t)]
    ensures Hand(Draw(t, count, seat, rng), seat)[..|Hand(t, seat)| + |t.deck|] == Hand(t, seat) + t.deck
  {
    var pool := Pool(t, count, rng);
    PoolKeeps(t, count, rng);
    var n := Min(count, |pool|);
    var h := Hand(t, seat);
    assert Hand(Draw(t, count, seat, rng), seat) == h + pool[..n];
    assert (h + pool[..n])[..|h| + |t.deck|] == h + t.deck by {
      assert pool[..n][..|t.deck|] == t.deck;
    }
  }

  lemma AllMultiset(t: Table)
    ensures multiset(All(t)) == multiset(t.deck) + multiset(t.discard) + multiset(t.pHand) + multiset(t.bHand)
    ensures multiset(All(t)) == multiset(t.deck) + multiset(t.discard) + multiset(Hand(t, Player)) + multiset(Hand(t, Bot))
  {
  }

  /** A draw only moves cards between the two piles and the drawing hand. */
  lemma DrawMoves(t: Table, count: nat, seat: Seat, rng: Rng)
    requires t.discard != []
    ensures multiset(Hand(Draw(t, count, seat, rng), seat)) + multiset(Draw(t, count, seat, rng).deck)
              + multiset(Draw(t, count, seat, rng).discard)
         == multiset(Hand(t, seat)) + multiset(t.deck) + multiset(t.discard)
    ensures Hand(Draw(t, count, seat, rng), Other(seat)) == Hand(t, Other(seat))
  {
    var r := Draw(t, count, seat, rng);
    var h := Hand(t, seat);
    var pool := Pool(t, count, rng);
    var n := Min(count, |pool|);
    assert Hand(r, seat) == h + pool[..n] && r.deck == pool[n..];
    assert r.discard == Draw(t, count, Bot, rng).discard;
    TakeFront(h, pool, n);
    PoolKeeps(t, count, rng);
    var mh, mp, md := multiset(h), multiset(pool), multiset(r.discard);
    assert (mh + mp) + md == mh + (mp + md);
  }

  /** Replacing three summands by three others with the same total leaves the sum unchanged. */
  lemma Reassemble<T>(d: multiset<T>, p: multiset<T>, h: multiset<T>, o: multiset<T>,
                      d2: multiset<T>, p2: multiset<T>, h2: multiset<T>)
    requires h2 + d2 + p2 == h + d + p
    ensures d2 + p2 + h2 + o == d + p + h + o
    ensures d2 + p2 + o + h2 == d + p + o + h
  {
    forall x ensures (d2 + p2 + h2 + o)[x] == (d + p + h + o)[x] {
      assert (h2 + d2 + p2)[x] == (h + d + p)[x];
    }
    forall x ensures (d2 + p2 + o + h2)[x] == (d + p + o + h)[x] {
      assert (h2 + d2 + p2)[x] == (h + d + p)[x];
    }
  }

  /** Drawing keeps every card on the table. */
  lemma DrawConserves(t: Table, count: nat, seat: Seat, rng: Rng)
    requires t.discard != []
    ensures multiset(All(Draw(t, count, seat, rng))) == multiset(All(t))
  {
    var r := Draw(t, count, seat, rng);
    DrawMoves(t, count, seat, rng);
    AllMultiset(t);
    AllMultiset(r);
    Reassemble(multiset(t.deck), multiset(t.discard), multiset(Hand(t, seat)), multiset(Hand(t, Other(seat))),
               multiset(r.deck), multiset(r.discard), multiset(Hand(r, seat)));
  }

  /**
   * What a draw does in every case: the hand grows by exactly `count` cards when the
   * draw pile and the discard pile below its top hold that many, by all of them
   * otherwise, and keeps its old cards in front; every card stays on the table; the
   * top card, the other hand, the turn, the colour and the winner stay.
   */
  lemma DrawEffect(t: Table, count: nat, seat: Seat, rng: Rng)
    requires t.discard != []
    ensures Draw(t, count, seat, rng).discard != []
    ensures multiset(All(Draw(t, count, seat, rng))) == multiset(All(t))
    ensures |Hand(Draw(t, count, seat, rng), seat)| == |Hand(t, seat)| + Min(count, |t.deck| + |t.discard| - 1)
    ensures Hand(Draw(t, count, seat, rng), seat)[..|Hand(t, seat)|] == Hand(t, seat)
    ensures Hand(Draw(t, count, seat, rng), Other(seat)) == Hand(t, Other(seat))
    ensures Top(Draw(t, count, seat, rng)) == Top(t)
    ensures Draw(t, count, seat, rng).turn == t.turn
    ensures Draw(t, count, seat, rng).color == t.color
    ensures Draw(t, count, seat, rng).winner == t.winner
  {
    var r := Draw(t, count, seat, rng);
    var pool := Pool(t, count, rng);
    PoolKeeps(t, count, rng);
    var n := Min(count, |pool|);
    assert Hand(r, seat) == Hand(t, seat) + pool[..n];
    TakeFront(Hand(t, seat), pool, n);
    DrawConserves(t, count, seat, rng);
  }

  /** A draw keeps the match invariant. */
  lemma DrawKeepsValid(t: Table, count: nat, seat: Seat, rng: Rng)
    requires Valid(t)
    ensures Valid(Draw(t, count, seat, rng))
  {
    DrawEffect(t, count, seat, rng);
    Rearranged(t, Draw(t, count, seat, rng));
  }

  // ---- playing a card ----

  /** The step that follows the win-detection effect: an empty hand makes its seat the winner. */
  function DetectWinner(t: Table): (r: Table)
    ensures r.(winner := t.winner) == t
    ensures t.discard != [] && t.bHand == [] ==> r.winner == Some(Bot)
    ensures t.discard != [] && t.pHand == [] && t.bHand != [] ==> r.winner == Some(Player)
    ensures (t.discard == [] || (t.pHand != [] && t.bHand != [])) ==> r.winner == t.winner
  {
    if t.discard == [] then t
    else
      var t1 := if t.pHand == [] then t.(winner := Some(Player)) else t;
      if t.bHand == [] then t1.(winner := Some(Bot)) else t1
  }

  /** Does the action of `v` keep the turn with the seat that played it? */
  predicate PlaysAgain(v: Value) {
    v == Skip || v == Reverse || v == Draw2 || v == Wild4
  }

  /** How many cards the other seat must draw after `v`. */
  function Penalty(v: Value): nat {
    if v == Draw2 then 2 else if v == Wild4 then 4 else 0
  }

  /**
   * The first half of a play: `card` leaves the hand of `actor` (by identifier)
   * for the top of the discard pile, and the colour becomes the card's or, for a
   * wild card, `chosen`.
   */
  function Discard(t: Table, card: Card, actor: Seat, chosen: Suit): (r: Table)
    ensures r.discard != [] && Top(r) == card
  {
    var newColor: Color := if card.color == Wild then chosen else card.color;
    WithHand(t.(discard := t.discard + [card], color := newColor), actor, RemoveId(Hand(t, actor), card.id))
  }

  /**
   * The second half of a play, the card's action: skip and reverse keep the turn,
   * draw-two and wild-draw-four make the other seat draw 2 or 4 and keep the turn,
   * any other card passes it.
   */
  function Act(t: Table, v: Value, actor: Seat, rng: Rng): Table
    requires t.discard != []
  {
    match v
    case Skip => t.(turn := actor)
    case Reverse => t.(turn := actor)
    case Draw2 => Draw(t, 2, Other(actor), rng).(turn := actor)
    case Wild4 => Draw(t, 4, Other(actor), rng).(turn := actor)
    case _ => t.(turn := Other(actor))
  }

  /** `actor` plays `card`: the card is discarded, its action follows, then win detection. */
  function Play(t: Table, card: Card, actor: Seat, chosen: Suit, rng: Rng): Table {
    DetectWinner(Act(Discard(t, card, actor, chosen), card.value, actor, rng))
  }

  /** What the game lets `actor` play now: its own turn, no winner yet, a card it holds that passes the legality test. */
  ghost predicate Legal(t: Table, card: Card, actor: Seat) {
    t.winner.None? && t.turn == actor && card in Hand(t, actor) && t.discard != [] && CanPlay(card, Top(t), t.color)
  }

  /** Moving `x` from one summand to another leaves a sum of multisets unchanged. */
  lemma Regroup<T>(d: multiset<T>, p: multiset<T>, h: multiset<T>, b: multiset<T>, x: multiset<T>)
    ensures d + (p + x) + h + b == d + p + (h + x) + b
    ensures d + (p + x) + b + h == d + p + b + (h + x)
  {
  }

  /** Discarding a held card moves exactly that card from the hand to the top of the discard pile. */
  lemma DiscardMoves(t: Table, card: Card, actor: Seat, chosen: Suit)
    requires UniqueIds(Hand(t, actor)) && card in Hand(t, actor)
    ensures Discard(t, card, actor, chosen).deck == t.deck
    ensures Discard(t, card, actor, chosen).discard == t.discard + [card]
    ensures |Discard(t, card, actor, chosen).discard| == |t.discard| + 1
    ensures Discard(t, card, actor, chosen).color == (if card.color == Wild then chosen else card.color)
    ensures multiset(Hand(Discard(t, card, actor, chosen), actor)) == multiset(Hand(t, actor)) - multiset{card}
    ensures |Hand(Discard(t, card, actor, chosen), actor)| == |Hand(t, actor)| - 1
    ensures Hand(Discard(t, card, actor, chosen), Other(actor)) == Hand(t, Other(actor))
    ensures Discard(t, card, actor, chosen).turn == t.turn
    ensures Discard(t, card, actor, chosen).winner == t.winner
    ensures exists p ::
      && 0 <= p < |Hand(t, actor)| && Hand(t, actor)[p] == card
      && Hand(Discard(t, card, actor, chosen), actor) == Hand(t, actor)[..p] + Hand(t, actor)[p + 1..]
  {
    RemoveIdOne(Hand(t, actor), card);
    RemoveIdInOrder(Hand(t, actor), card);
  }

  /** Discarding keeps every card on the table. */
  lemma DiscardConserves(t: Table, card: Card, actor: Seat, chosen: Suit)
    requires UniqueIds(Hand(t, actor)) && card in Hand(t, actor)
    ensures multiset(All(Discard(t, card, actor, chosen))) == multiset(All(t))
  {
    var h := Hand(t, actor);
    var h1 := RemoveId(h, card.id);
    RemoveIdOne(h, card);
    var t1 := Discard(t, card, actor, chosen);
    assert multiset(h) == multiset(h1) + multiset{card};
    assert multiset(t1.discard) == multiset(t.discard) + multiset{card};
    AllMultiset(t);
    AllMultiset(t1);
    Regroup(multiset(t.deck), multiset(t.discard), multiset(h1), multiset(Hand(t, Other(actor))), multiset{card});
  }

  /**
   * A card's action keeps the cards, the top, the colour, the winner and the hand of
   * `actor`; the other seat draws its penalty, as far as the piles allow, and the turn
   * follows the turn rule.
   */
  lemma ActEffect(t: Table, v: Value, actor: Seat, rng: Rng)
    requires t.discard != []
    ensures Act(t, v, actor, rng).discard != []
    ensures multiset(All(Act(t, v, actor, rng))) == multiset(All(t))
    ensures Top(Act(t, v, actor, rng)) == Top(t)
    ensures Act(t, v, actor, rng).color == t.color
    ensures Act(t, v, actor, rng).winner == t.winner
    ensures Hand(Act(t, v, actor, rng), actor) == Hand(t, actor)
    ensures |Hand(Act(t, v, actor, rng), Other(actor))|
         == |Hand(t, Other(actor))| + Min(Penalty(v), |t.deck| + |t.discard| - 1)
    ensures Hand(Act(t, v, actor, rng), Other(actor))[..|Hand(t, Other(actor))|] == Hand(t, Other(actor))
    ensures Act(t, v, actor, rng).turn == if PlaysAgain(v) then actor else Other(actor)
  {
    ActAsDraw(t, v, actor, rng);
    DrawEffect(t, Penalty(v), Other(actor), rng);
  }

  /** Drawing no card changes nothing. */
  lemma DrawNothing(t: Table, seat: Seat, rng: Rng)
    requires t.discard != []
    ensures Draw(t, 0, seat, rng) == t
  {
    assert t.deck[0..] == t.deck;
    assert Hand(t, seat) + t.deck[..0] == Hand(t, seat);
  }

  /** Every action is a draw of the penalty by the other seat, none for most values, followed by the turn rule. */
  lemma ActAsDraw(t: Table, v: Value, actor: Seat, rng: Rng)
    requires t.discard != []
    ensures Act(t, v, actor, rng)
         == Draw(t, Penalty(v), Other(actor), rng).(turn := if PlaysAgain(v) then actor else Other(actor))
  {
    if Penalty(v) == 0 {
      DrawNothing(t, Other(actor), rng);
    }
  }

  /**
   * Win detection after a move of `actor` in an undecided match whose other hand still
   * holds cards: `actor` has won exactly when its hand is empty.
   */
  lemma WinnerAfterMove(t: Table, actor: Seat)
    requires t.discard != [] && t.winner.None? && Hand(t, Other(actor)) != []
    ensures DetectWinner(t).winner == if Hand(t, actor) == [] then Some(actor) else None
  {
  }

  /**
   * A legal play puts the card on top, removes exactly that card from the hand of
   * `actor`, keeps every card on the table and sets the colour: the card's own, or the
   * chosen one for a wild card.
   */
  lemma PlayMovesCard(t: Table, card: Card, actor: Seat, chosen: Suit, rng: Rng)
    requires Legal(t, card, actor) && UniqueIds(Hand(t, actor))
    ensures Play(t, card, actor, chosen, rng).discard != []
    ensures multiset(All(Play(t, card, actor, chosen, rng))) == multiset(All(t))
    ensures Top(Play(t, card, actor, chosen, rng)) == card
    ensures Play(t, card, actor, chosen, rng).color == if card.color == Wild then chosen else card.color
    ensures multiset(Hand(Play(t, card, actor, chosen, rng), actor)) == multiset(Hand(t, actor)) - multiset{card}
    ensures |Hand(Play(t, card, actor, chosen, rng), actor)| == |Hand(t, actor)| - 1
  {
    var t1 := Discard(t, card, actor, chosen);
    DiscardMoves(t, card, actor, chosen);
    DiscardConserves(t, card, actor, chosen);
    ActEffect(t1, card.value, actor, rng);
    var t2 := Act(t1, card.value, actor, rng);
    var r := Play(t, card, actor, chosen, rng);
    assert r == DetectWinner(t2);
    assert r.deck == t2.deck && r.discard == t2.discard && r.pHand == t2.pHand && r.bHand == t2.bHand;
  }

  /** A play is its discard and its action, then win detection, which changes the winner only. */
  lemma PlaySteps(t: Table, card: Card, actor: Seat, chosen: Suit, rng: Rng)
    ensures Discard(t, card, actor, chosen).discard != []
    ensures Play(t, card, actor, chosen, rng).(winner := Act(Discard(t, card, actor, chosen), card.value, actor, rng).winner)
         == Act(Discard(t, card, actor, chosen), card.value, actor, rng)
  {
  }

  /**
   * After a legal play the other seat holds its old cards followed by exactly its
   * penalty when the draw and discard piles hold enough cards; skip, reverse, draw-two
   * and wild-draw-four keep the turn, other cards pass it.
   */
  lemma PlayTurn(t: Table, card: Card, actor: Seat, chosen: Suit, rng: Rng)
    requires Legal(t, card, actor) && UniqueIds(Hand(t, actor))
    ensures |Hand(Play(t, card, actor, chosen, rng), Other(actor))|
         == |Hand(t, Other(actor))| + Min(Penalty(card.value), |t.deck| + |t.discard|)
    ensures Hand(Play(t, card, actor, chosen, rng), Other(actor))[..|Hand(t, Other(actor))|] == Hand(t, Other(actor))
    ensures Play(t, card, actor, chosen, rng).turn == if PlaysAgain(card.value) then actor else Other(actor)
  {
    var t1 := Discard(t, card, actor, chosen);
    DiscardMoves(t, card, actor, chosen);
    ActEffect(t1, card.value, actor, rng);
    PlaySteps(t, card, actor, chosen, rng);
  }

  /** After a legal play while the other seat holds cards, `actor` has won exactly when its hand is now empty. */
  lemma PlayWinner(t: Table, card: Card, actor: Seat, chosen: Suit, rng: Rng)
    requires Legal(t, card, actor) && Hand(t, Other(actor)) != []
    ensures Play(t, card, actor, chosen, rng).winner
         == if Hand(Play(t, card, actor, chosen, rng), actor) == [] then Some(actor) else None
  {
    var t1 := Discard(t, card, actor, chosen);
    ActEffect(t1, card.value, actor, rng);
    var t2 := Act(t1, card.value, actor, rng);
    assert Hand(t2, Other(actor)) != [] by {
      assert |Hand(t2, Other(actor))| >= |Hand(t1, Other(actor))|;
    }
    WinnerAfterMove(t2, actor);
    PlaySteps(t, card, actor, chosen, rng);
  }

  /**
   * A legal play cuts the card out of the hand of `actor` where it stood; the other
   * cards keep their order. Unless the action's penalty forces a reshuffle, the card
   * is appended to the old discard pile.
   */
  lemma PlayKeepsOrder(t: Table, card: Card, actor: Seat, chosen: Suit, rng: Rng)
    requires Legal(t, card, actor) && UniqueIds(Hand(t, actor))
    ensures exists p ::
      && 0 <= p < |Hand(t, actor)| && Hand(t, actor)[p] == card
      && Hand(Play(t, card, actor, chosen, rng), actor) == Hand(t, actor)[..p] + Hand(t, actor)[p + 1..]
    ensures Penalty(card.value) <= |t.deck| ==> Play(t, card, actor, chosen, rng).discard == t.discard + [card]
  {
    var t1 := Discard(t, card, actor, chosen);
    DiscardMoves(t, card, actor, chosen);
    ActEffect(t1, card.value, actor, rng);
    PlaySteps(t, card, actor, chosen, rng);
    assert Hand(Play(t, card, actor, chosen, rng), actor) == Hand(t1, actor);
    ActAsDraw(t1, card.value, actor, rng);
  }

  /** A legal play keeps the match invariant. */
  lemma PlayKeepsValid(t: Table, card: Card, actor: Seat, chosen: Suit, rng: Rng)
    requires Valid(t) && Legal(t, card, actor)
    ensures Valid(Play(t, card, actor, chosen, rng))
  {
    HandsUnique(t);
    PlayMovesCard(t, card, actor, chosen, rng);
    PlayWinner(t, card, actor, chosen, rng);
    Rearranged(t, Play(t, card, actor, chosen, rng));
  }

  // ---- the bot's turn ----

  function Last(h: seq<Card>): Card
    requires h != []
  {
    h[|h| - 1]
  }

  /**
   * The bot's move: nothing unless it is the bot's turn in an undecided match;
   * otherwise the first card of its hand that may be played is played, and with
   * none it draws one card, plays it when it may be played and otherwise passes
   * the turn to the player. `choice` is the colour the bot names for a wild card.
   */
  function BotAct(t: Table, choice: Suit, drawRng: Rng, playRng: Rng): Table
    requires t.discard != []
  {
    if t.winner.Some? || t.turn != Bot then t
    else match FirstPlayable(t.bHand, Top(t), t.color)
      case Some(i) => Play(t, t.bHand[i], Bot, choice, playRng)
      case None => TryDrawn(Draw(t, 1, Bot, drawRng), choice, playRng)
  }

  /** After the bot's draw: its last card is played when it may be, otherwise the turn passes to the player. */
  function TryDrawn(t: Table, choice: Suit, rng: Rng): Table
    requires t.discard != []
  {
    if t.bHand != [] && CanPlay(Last(t.bHand), Top(t), t.color)
    then Play(t, Last(t.bHand), Bot, choice, rng)
    else t.(turn := Player)
  }

  /** Out of turn, or once the match is decided, the bot does nothing. */
  lemma BotActIdle(t: Table, choice: Suit, drawRng: Rng, playRng: Rng)
    requires t.discard != [] && (t.winner.Some? || t.turn != Bot)
    ensures BotAct(t, choice, drawRng, playRng) == t
  {
  }

  /** With a playable card in hand, the bot plays the first one: it leaves the hand and lies on top. */
  lemma BotActPlaysFirst(t: Table, choice: Suit, drawRng: Rng, playRng: Rng)
    requires Valid(t) && t.winner.None? && t.turn == Bot
    requires exists k :: 0 <= k < |t.bHand| && CanPlay(t.bHand[k], Top(t), t.color)
    ensures FirstPlayable(t.bHand, Top(t), t.color).Some?
    ensures var i := FirstPlayable(t.bHand, Top(t), t.color).value;
      && Valid(BotAct(t, choice, drawRng, playRng))
      && Top(BotAct(t, choice, drawRng, playRng)) == t.bHand[i]
      && multiset(BotAct(t, choice, drawRng, playRng).bHand) == multiset(t.bHand) - multiset{t.bHand[i]}
      && forall k :: 0 <= k < i ==> !CanPlay(t.bHand[k], Top(t), t.color)
  {
    var i := FirstPlayable(t.bHand, Top(t), t.color).value;
    HandsUnique(t);
    PlayMovesCard(t, t.bHand[i], Bot, choice, playRng);
    PlayKeepsValid(t, t.bHand[i], Bot, choice, playRng);
  }

  /**
   * With no playable card, the bot draws one card. When a card was drawn and it may
   * be played on the unchanged top, it is played, so the bot's hand is as before and
   * the card lies on top; otherwise the table is that after the draw with the turn
   * passed to the player, the bot's hand grown by the drawn card (none when both
   * piles are exhausted).
   */
  lemma BotActDraws(t: Table, choice: Suit, drawRng: Rng, playRng: Rng)
    requires Valid(t) && t.winner.None? && t.turn == Bot
    requires forall k :: 0 <= k < |t.bHand| ==> !CanPlay(t.bHand[k], Top(t), t.color)
    ensures Valid(BotAct(t, choice, drawRng, playRng))
    ensures var t1 := Draw(t, 1, Bot, drawRng);
      |t1.bHand| > |t.bHand| && CanPlay(Last(t1.bHand), Top(t), t.color) ==>
        && Top(BotAct(t, choice, drawRng, playRng)) == Last(t1.bHand)
        && multiset(BotAct(t, choice, drawRng, playRng).bHand) == multiset(t.bHand)
    ensures var t1 := Draw(t, 1, Bot, drawRng);
      !(|t1.bHand| > |t.bHand| && CanPlay(Last(t1.bHand), Top(t), t.color)) ==>
        BotAct(t, choice, drawRng, playRng) == t1.(turn := Player)
    ensures |Draw(t, 1, Bot, drawRng).bHand| == |t.bHand| + Min(1, |t.deck| + |t.discard| - 1)
    ensures Draw(t, 1, Bot, drawRng).bHand[..|t.bHand|] == t.bHand
    ensures Top(Draw(t, 1, Bot, drawRng)) == Top(t) && Draw(t, 1, Bot, drawRng).color == t.color
  {
    var t1 := Draw(t, 1, Bot, drawRng);
    BotActDrawStep(t, choice, drawRng, playRng);
    DrawEffect(t, 1, Bot, drawRng);
    DrawKeepsValid(t, 1, Bot, drawRng);
    TryDrawnEffect(t, t1, choice, playRng);
  }

  /**
   * What the bot does with its hand `t1` after drawing from the table `t`: a drawn
   * card that may be played is played, and otherwise the turn passes to the player.
   */
  lemma TryDrawnEffect(t: Table, t1: Table, choice: Suit, playRng: Rng)
    requires Valid(t1) && t1.winner.None? && t1.turn == Bot && t.discard != []
    requires forall k :: 0 <= k < |t.bHand| ==> !CanPlay(t.bHand[k], Top(t), t.color)
    requires |t.bHand| <= |t1.bHand| <= |t.bHand| + 1
    requires t1.bHand[..|t.bHand|] == t.bHand
    requires Top(t1) == Top(t) && t1.color == t.color
    ensures Valid(TryDrawn(t1, choice, playRng))
    ensures |t1.bHand| > |t.bHand| && CanPlay(Last(t1.bHand), Top(t), t.color) ==>
      && Top(TryDrawn(t1, choice, playRng)) == Last(t1.bHand)
      && multiset(TryDrawn(t1, choice, playRng).bHand) == multiset(t.bHand)
    ensures !(|t1.bHand| > |t.bHand| && CanPlay(Last(t1.bHand), Top(t), t.color)) ==>
      TryDrawn(t1, choice, playRng) == t1.(turn := Player)
  {
    if t1.bHand != [] && CanPlay(Last(t1.bHand), Top(t1), t1.color) {
      DrawnCardPlayed(t, t1, choice, playRng);
    }
  }

  /** The bot's move, in every case, keeps every card on the table. */
  lemma BotActConserves(t: Table, choice: Suit, drawRng: Rng, playRng: Rng)
    requires Valid(t)
    ensures multiset(All(BotAct(t, choice, drawRng, playRng))) == multiset(All(t))
  {
    if t.winner.None? && t.turn == Bot {
      match FirstPlayable(t.bHand, Top(t), t.color)
      case Some(i) =>
        HandsUnique(t);
        PlayMovesCard(t, t.bHand[i], Bot, choice, playRng);
      case None =>
        BotActDrawStep(t, choice, drawRng, playRng);
        BotDrawConserves(t, choice, drawRng, playRng);
    }
  }

  /** The bot's draw, and the play of the drawn card when it follows, keep every card on the table. */
  lemma BotDrawConserves(t: Table, choice: Suit, drawRng: Rng, playRng: Rng)
    requires Valid(t) && t.winner.None? && t.turn == Bot
    ensures multiset(All(TryDrawn(Draw(t, 1, Bot, drawRng), choice, playRng))) == multiset(All(t))
  {
    var t1 := Draw(t, 1, Bot, drawRng);
    DrawEffect(t, 1, Bot, drawRng);
    DrawKeepsValid(t, 1, Bot, drawRng);
    if t1.bHand != [] && CanPlay(Last(t1.bHand), Top(t1), t1.color) {
      HandsUnique(t1);
      PlayMovesCard(t1, Last(t1.bHand), Bot, choice, playRng);
    }
  }

  /** Without a playable card in its hand, the bot draws one and goes on from there. */
  lemma BotActDrawStep(t: Table, choice: Suit, drawRng: Rng, playRng: Rng)
    requires t.discard != [] && t.winner.None? && t.turn == Bot
    requires forall k :: 0 <= k < |t.bHand| ==> !CanPlay(t.bHand[k], Top(t), t.color)
    ensures BotAct(t, choice, drawRng, playRng) == TryDrawn(Draw(t, 1, Bot, drawRng), choice, playRng)
  {
    assert FirstPlayable(t.bHand, Top(t), t.color) == None;
  }

  /** The bot's hand after drawing holds its old cards first, so a playable last card is the drawn one. */
  lemma DrawnCardPlayed(t: Table, t1: Table, choice: Suit, playRng: Rng)
    requires Valid(t1) && t1.winner.None? && t1.turn == Bot && t.discard != []
    requires forall k :: 0 <= k < |t.bHand| ==> !CanPlay(t.bHand[k], Top(t), t.color)
    requires |t.bHand| <= |t1.bHand| <= |t.bHand| + 1 && t1.bHand[..|t.bHand|] == t.bHand
    requires Top(t1) == Top(t) && t1.color == t.color
    requires t1.bHand != [] && CanPlay(Last(t1.bHand), Top(t1), t1.color)
    ensures |t1.bHand| == |t.bHand| + 1
    ensures var r := Play(t1, Last(t1.bHand), Bot, choice, playRng);
      Valid(r) && multiset(r.bHand) == multiset(t.bHand) && Top(r) == Last(t1.bHand)
  {
    var c := Last(t1.bHand);
    assert forall k :: 0 <= k < |t.bHand| ==> !CanPlay(t1.bHand[k], Top(t1), t1.color) by {
      forall k | 0 <= k < |t.bHand| ensures t1.bHand[k] == t.bHand[k] {
        assert t1.bHand[..|t.bHand|][k] == t1.bHand[k];
      }
    }
    assert t1.bHand == t.bHand + [c];
    HandsUnique(t1);
    PlayMovesCard(t1, c, Bot, choice, playRng);
    PlayKeepsValid(t1, c, Bot, choice, playRng);
    assert multiset(t1.bHand) - multiset{c} == multiset(t.bHand);
  }

  // ---- the player's voluntary draw ----

  /** The draw button: only on the player's turn in an undecided match; one card, then the bot's turn. */
  function OnDraw(t: Table, rng: Rng): Table
    requires t.discard != []
  {
    if t.turn != Player || t.winner.Some? then t
    else Draw(t, 1, Player, rng).(turn := Bot)
  }

  lemma OnDrawEffect(t: Table, rng: Rng)
    requires Valid(t)
    ensures Valid(OnDraw(t, rng))
    ensures t.turn != Player || t.winner.Some? ==> OnDraw(t, rng) == t
    ensures t.turn == Player && t.winner.None? ==>
      && OnDraw(t, rng).turn == Bot
      && OnDraw(t, rng).pHand[..|t.pHand|] == t.pHand
      && |OnDraw(t, rng).pHand| == |t.pHand| + Min(1, |t.deck| + |t.discard| - 1)
      && OnDraw(t, rng).bHand == t.bHand
      && Top(OnDraw(t, rng)) == Top(t)
    ensures multiset(All(OnDraw(t, rng))) == multiset(All(t))
    ensures OnDraw(t, rng).color == t.color && OnDraw(t, rng).winner == t.winner
  {
    DrawEffect(t, 1, Player, rng);
    DrawKeepsValid(t, 1, Player, rng);
  }

  // ---- the opening deal ----

  /** Position of the first card that is not wild-coloured. */
  ghost function FirstPlain(d: seq<Card>): (k: nat)
    requires HasPlain(d)
    ensures k < |d| && d[k].color != Wild
    ensures forall i :: 0 <= i < k ==> d[i].color == Wild
    decreases |d|
  {
    if d[0].color != Wild then 0
    else
      assert HasPlain(d[1..]) by {
        var i :| 0 <= i < |d| && d[i].color != Wild;
        assert d[1..][i - 1] == d[i];
      }
      1 + FirstPlain(d[1..])
  }

  /**
   * The opening deal from the shuffled deck `d`: the wild cards on top are moved
   * one by one to the bottom, the first other card starts the discard pile and
   * sets the colour, the next seven cards are the player's, the seven after those
   * the bot's, the player moves first.
   */
  ghost function Deal(d: seq<Card>): Table
    requires 15 <= |d| && HasPlain(d)
  {
    var k := FirstPlain(d);
    var r := d[k..] + d[..k];
    Table(r[15..], [r[0]], r[1..8], r[8..15], Player, r[0].color, None)
  }

  /**
   * The opening deal of a full deck: a non-wild card on the discard pile whose
   * colour is the colour to match, seven cards in each hand, 93 in the draw pile,
   * the skipped wild cards at its bottom, all 108 cards kept.
   */
  lemma DealValid(d: seq<Card>)
    requires |d| == 108 && UniqueIds(d) && HasPlain(d)
    ensures Valid(Deal(d))
    ensures multiset(All(Deal(d))) == multiset(d)
    ensures Deal(d).discard == [d[FirstPlain(d)]] && Top(Deal(d)).color != Wild
    ensures Deal(d).color == Top(Deal(d)).color
    ensures |Deal(d).pHand| == 7 && |Deal(d).bHand| == 7 && |Deal(d).deck| == 93
    ensures FirstPlain(d) <= 93 ==> Deal(d).deck[93 - FirstPlain(d)..] == d[..FirstPlain(d)]
    ensures Deal(d).turn == Player && Deal(d).winner == None
  {
    var k := FirstPlain(d);
    var r := d[k..] + d[..k];
    RotateKeeps(d, k);
    DealSplit(r);
    assert All(Deal(d)) == r[15..] + [r[0]] + r[1..8] + r[8..15];
    PermutationKeepsUniqueIds(All(Deal(d)), d);
  }

  /** The table a match opens with when its deck was shuffled with `rng`. */
  ghost function Opening(rng: Rng): Table {
    ShuffledDeck(rng, Red, Num(0));
    Deal(Shuffled(Canonical(), rng))
  }

  /**
   * Every opening keeps the invariant: the 108 cards of the standard deck, a non-wild
   * card turned up whose colour is to be matched, seven cards per hand and 93 to draw.
   */
  lemma OpeningValid(rng: Rng)
    ensures Valid(Opening(rng))
    ensures multiset(All(Opening(rng))) == multiset(Canonical())
    ensures Top(Opening(rng)).color != Wild && Opening(rng).color == Top(Opening(rng)).color
    ensures |Opening(rng).pHand| == 7 && |Opening(rng).bHand| == 7 && |Opening(rng).deck| == 93
    ensures Opening(rng).turn == Player && Opening(rng).winner == None
  {
    ShuffledDeck(rng, Red, Num(0));
    DealValid(Shuffled(Canonical(), rng));
  }

  /** Moving a prefix to the back keeps the cards. */
  lemma RotateKeeps(d: seq<Card>, k: nat)
    requires k <= |d|
    ensures multiset(d[k..] + d[..k]) == multiset(d) && |d[k..] + d[..k]| == |d|
  {
    assert d == d[..k] + d[k..];
  }

  /** Cutting a sequence into top card, two hands of seven and the rest keeps the cards. */
  lemma DealSplit(r: seq<Card>)
    requires |r| >= 15
    ensures multiset(r[15..] + [r[0]] + r[1..8] + r[8..15]) == multiset(r)
  {
    assert r == [r[0]] + r[1..8] + r[8..15] + r[15..];
  }
}
