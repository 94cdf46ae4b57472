# UNO against the bot — a verified model of the match engine

This project models the engine of the staked UNO match against a bot in
`src/pages/GameBot.tsx`. It covers:

- building the 108-card deck and its Fisher–Yates shuffle;
- the legality test for a play;
- the opening deal;
- the turn machine: drawing with a reshuffle of the discard pile, playing a card with its action, the bot's move, the player's draw button and win detection;
- the balance arithmetic that settles a finished match.

The model is organised in these modules:

- `Cards` holds the card values, `CanPlay`, the bot's search for a playable card, and filtering a hand by identifier.
- `Shuffling` holds the shuffle. `Shuffled` is the function; `Shuffle` is the in-place swap loop over an array copy.
- `Deck` holds the canonical deck `Canonical` and its composition. `FreshDeck`/`BuildDeck` are the push loops that build it.
- `Rules` states every step of a match as a function on a `Table`: the two piles, the two hands, the turn, the colour to match and the winner. Its lemmas state what each step does and prove that every move (draw, play, bot move, draw button, deal) keeps the match invariant `Valid`: 108 cards with distinct identifiers on the table, a discard pile that is never empty, a suit as the colour to match, and while nobody has won, cards in both hands.
- `Game` holds the class `Match`. Its fields are the state the page keeps, and its methods change them step by step as the page does. Each method is proved to leave the match exactly as the matching `Rules` function says. The constructor, `PlayCard`, `BotAct`, `DrawAndTry`, `TryDrawn` and `OnDraw` are also proved to keep `Valid`. `Load`, `DrawCard`, `DetectWinner`, `PutOnPile` and `RunAction` are inner steps that may pass through states between moves, so they state only their effect; the `Rules` lemmas about those steps state what they keep.
- `Settlement` holds the payout and lock-release arithmetic.

Randomness is an input:

- An `Rng` maps each step of a shuffle to a real in [0, 1). The swap index is `floor(r * (i + 1))`, as in the source.
- The colour a wild card names (the bot's random pick, or the player's choice in the dialog) is a parameter.
- Card identifiers, random strings in the source, are the card's position in the unshuffled deck. Hence they are distinct naturals.

The page runs the steps through React state updates and timers. The model runs them in the order the code intends:

- a reshuffle happens before cards are served;
- the card the bot has just drawn is the last card of its hand when it decides whether to play it.

Three behaviours of the code are worth naming, because a reader might expect otherwise:

- No rake is deducted. A `rake` of a tenth of the stake is computed at line 72 but never used, and the winner's payout is exactly twice the stake (line 192, whose comment says there is no house edge).
- A draw that finds too few cards, even after the reshuffle, serves the cards that exist and signals nothing (lines 106-118).
- `playCard` does not check legality (lines 124-146). The page only offers the player cards that pass `canPlay` (lines 330-343), and the bot checks before it plays (lines 150, 158). So legality is a precondition of `Play`/`PlayCard`.

## Model

| member | source | states |
|---|---|---|
| Cards.CanPlay | src/pages/GameBot.tsx:55-61 | a card may be played exactly when it is wild-coloured, has the colour to match, or has the top card's value (two equal numbers or the same action) |
| Cards.FirstPlayable | src/pages/GameBot.tsx:149-150 | the result is the index of a playable card with no playable card before it; none exactly when no card of the hand is playable |
| Cards.RemoveId | src/pages/GameBot.tsx:128-129 | the filter never lengthens the hand; which cards it keeps and in what order are stated by the three lemmas below |
| Cards.RemoveIdMembers | src/pages/GameBot.tsx:128-129 | the filtered hand holds exactly the hand's cards whose identifier differs from the given one |
| Cards.RemoveIdAppend | src/pages/GameBot.tsx:128-129 | the filter works card by card in order: filtering a concatenation concatenates the filtered parts |
| Cards.RemoveIdInOrder | src/pages/GameBot.tsx:128-129 | in a hand with distinct identifiers, filtering by a held card's identifier cuts out that card where it stands: the cards before it and after it stay, in their order |
| Cards.RemoveIdOne | src/pages/GameBot.tsx:128-129 | in a hand with distinct identifiers, filtering by a held card's identifier removes that one card: multiset minus the card, length minus one |
| Shuffling.Pick | src/pages/GameBot.tsx:49 | the swap index chosen at step `i` lies in [0, i] |
| Shuffling.ShufflePermutes | src/pages/GameBot.tsx:46-53 | the shuffle keeps the length and the multiset of its input |
| Shuffling.Shuffle | src/pages/GameBot.tsx:46-53 | the swap loop over an array copy returns the shuffle function's result, a permutation of the input of the same length; the input sequence is a value and stays as it was |
| Deck.CanonicalShape | src/pages/GameBot.tsx:23-42 | the unshuffled deck has 108 cards; card `i` has identifier `i`, so identifiers are distinct; every card is wild-coloured exactly when its value is wild or wild-draw-four |
| Deck.CanonicalComposition | src/pages/GameBot.tsx:23-42 | per colour one 0, two of each of 1–9, two skips, two reverses and two draw-twos; four wild and four wild-draw-four cards; no other card |
| Deck.PushSuit | src/pages/GameBot.tsx:26-39 | the push loop for one colour appends exactly that colour's 25-card block |
| Deck.FreshDeck | src/pages/GameBot.tsx:24-42 | the push loops build exactly the canonical deck |
| Deck.BuildDeck | src/pages/GameBot.tsx:23-44 | the deck built is the canonical deck shuffled with the given randomness |
| Deck.ShuffledDeck | src/pages/GameBot.tsx:23-44 | every shuffled deck has 108 cards, the canonical multiset and composition, distinct identifiers and a non-wild card |
| Rules.HandsUnique | src/pages/GameBot.tsx:128-129 | distinct identifiers on the table mean distinct identifiers in each hand, so filtering by identifier removes one card |
| Rules.DrawFromPile | src/pages/GameBot.tsx:103-120 | with enough cards in the draw pile, its first `count` cards go to the end of the hand, in order, and the discard pile stays |
| Rules.DrawWithReshuffle | src/pages/GameBot.tsx:106-117 | with a short draw pile, the discard pile shrinks to its top and the hand receives the whole old draw pile first |
| Rules.DrawMoves | src/pages/GameBot.tsx:103-120 | a draw moves cards only among the draw pile, the discard pile and the drawing hand; the other hand stays |
| Rules.DrawConserves | src/pages/GameBot.tsx:103-120 | a draw keeps the multiset of all cards on the table |
| Rules.DrawEffect | src/pages/GameBot.tsx:103-120 | the hand grows by `min(count, draw pile + discard pile − 1)` and keeps its old cards in front; the top discard, the other hand, turn, colour and winner stay; all cards are kept |
| Rules.DrawKeepsValid | src/pages/GameBot.tsx:103-120 | a draw keeps the match invariant |
| Rules.DetectWinner | src/pages/GameBot.tsx:167-171 | only the winner changes; once the discard pile exists, an empty bot hand makes the bot the winner, otherwise an empty player hand makes the player the winner, otherwise the winner stays |
| Rules.Discard | src/pages/GameBot.tsx:124-130 | the played card is on top of the discard pile |
| Rules.DiscardMoves | src/pages/GameBot.tsx:124-130 | discarding removes exactly the card from the hand of the seat that played it, cutting it out where it stood with the other cards in their order; it appends the card to the old discard pile, sets the card's colour or the chosen one for a wild card, and changes nothing else |
| Rules.DiscardConserves | src/pages/GameBot.tsx:124-130 | discarding keeps every card on the table |
| Rules.ActAsDraw | src/pages/GameBot.tsx:132-145 | every action is a draw of its penalty by the other seat (2 for draw-two, 4 for wild-draw-four, none otherwise), then the turn rule |
| Rules.ActEffect | src/pages/GameBot.tsx:132-145 | an action keeps the cards, top, colour, winner and the actor's hand; the other hand grows by its penalty as far as the piles allow, keeping its old cards; skip, reverse, draw-two and wild-draw-four keep the turn, others pass it |
| Rules.WinnerAfterMove | src/pages/GameBot.tsx:167-171 | after a move in an undecided match whose other hand holds cards, the mover has won exactly when its hand is empty |
| Rules.PlayMovesCard | src/pages/GameBot.tsx:124-146 | a legal play puts the card on top, removes exactly that card from the actor's hand, sets the colour (the card's own, or the chosen one when wild) and keeps all cards |
| Rules.PlayTurn | src/pages/GameBot.tsx:133-145 | after a legal play the other hand keeps its cards and gains exactly its penalty (2 or 4) as far as the piles allow; skip, reverse, draw-two and wild-draw-four keep the turn, other cards pass it |
| Rules.PlayWinner | src/pages/GameBot.tsx:124-146 | after a legal play while the other hand holds cards, the actor has won exactly when its hand is now empty |
| Rules.PlayKeepsOrder | src/pages/GameBot.tsx:124-146 | after a legal play the actor's hand is its old hand with the played card cut out where it stood, the other cards in their order; when the draw pile covers the action's penalty, the discard pile is the old one with the card appended |
| Rules.PlayKeepsValid | src/pages/GameBot.tsx:124-146 | a legal play keeps the match invariant |
| Rules.BotActIdle | src/pages/GameBot.tsx:149 | out of turn or once the match is decided, the bot does nothing |
| Rules.BotActPlaysFirst | src/pages/GameBot.tsx:150-152 | with a playable card in hand, the bot plays the first one in hand order: it lies on top and leaves the hand, and no earlier card was playable |
| Rules.BotActDrawStep | src/pages/GameBot.tsx:153-154 | with no playable card, the bot draws one card and goes on from the resulting table |
| Rules.BotActConserves | src/pages/GameBot.tsx:148-165 | whatever the bot does (nothing, play, draw, draw and play), the multiset of all cards on the table is unchanged |
| Rules.BotDrawConserves | src/pages/GameBot.tsx:153-164 | the bot's draw followed by playing the drawn card when it fits leaves the multiset of all cards on the table unchanged |
| Rules.BotActDraws | src/pages/GameBot.tsx:153-164 | with no playable card, the bot draws one card (none when both piles are exhausted), behind its old cards, with top and colour unchanged. When a card was drawn and it may be played on the top, it is played: it lies on top and the bot's hand is as before. Otherwise the result is exactly the table after the draw with the turn passed to the player. The invariant is kept |
| Rules.TryDrawnEffect | src/pages/GameBot.tsx:156-163 | after the draw, a drawn card that may be played is played (it lies on top and the hand is as before the draw); otherwise the result is exactly the drawn table with the turn passed to the player; the invariant is kept |
| Rules.DrawnCardPlayed | src/pages/GameBot.tsx:157-159 | a playable last card after the draw is the drawn card; playing it leaves the old hand and keeps the invariant |
| Rules.OnDrawEffect | src/pages/GameBot.tsx:216-220 | the draw button does nothing out of the player's turn or once decided; otherwise the player draws one card (as far as the piles allow) and the turn passes to the bot; the colour to match and the winner are unchanged, every card on the table stays on it, and the invariant is kept |
| Rules.FirstPlain | src/pages/GameBot.tsx:89 | the position of the first non-wild card: every card before it is wild |
| Rules.DealValid | src/pages/GameBot.tsx:85-101 | the deal of a full deck turns up a non-wild card whose colour is to be matched, deals 7 cards to each hand, leaves 93 to draw with the skipped wild cards at its bottom, keeps all 108 cards, and the player moves first with no winner |
| Rules.OpeningValid | src/pages/GameBot.tsx:85-101 | every opening keeps the invariant, holds exactly the canonical deck's cards, turns up a non-wild card of the colour to match, and deals 7, 7 and 93 |
| Game.SkipWilds | src/pages/GameBot.tsx:89 | the rotation loop ends, because the deck holds a non-wild card, with the first non-wild card on top and the wild cards before it moved to the bottom |
| Game.DealOut | src/pages/GameBot.tsx:87-100 | the imperative deal produces exactly the table of the deal function |
| Game.Open | src/pages/GameBot.tsx:85-101 | the init effect builds the opening table for the given randomness, and it satisfies the invariant |
| Game.Match.constructor | src/pages/GameBot.tsx:85-101 | a new match holds the opening table for the given randomness and satisfies the invariant |
| Game.Match.DrawCard | src/pages/GameBot.tsx:103-120 | the fields after the draw are exactly the draw function of the fields before |
| Game.Match.DetectWinner | src/pages/GameBot.tsx:167-171 | the fields after win detection are exactly those the win-detection function gives |
| Game.Match.PutOnPile | src/pages/GameBot.tsx:125-130 | moving the card to the pile and setting the colour gives exactly the discard function's table |
| Game.Match.RunAction | src/pages/GameBot.tsx:132-145 | the action step gives exactly the action function's table |
| Game.Match.PlayCard | src/pages/GameBot.tsx:124-146 | a legal play leaves the fields as the play function says, keeps every card on the table and keeps the invariant |
| Game.Match.BotAct | src/pages/GameBot.tsx:148-165 | the bot's move leaves the fields as the bot function says, keeps every card on the table and keeps the invariant |
| Game.Match.DrawAndTry | src/pages/GameBot.tsx:153-164 | the bot's draw-then-try branch leaves the fields as the bot function says and keeps the invariant |
| Game.Match.TryDrawn | src/pages/GameBot.tsx:156-163 | playing the drawn card or passing the turn leaves the fields as the matching function says and keeps the invariant |
| Game.Match.OnDraw | src/pages/GameBot.tsx:216-220 | the draw button leaves the fields as the draw-button function says, keeps every card on the table and keeps the invariant |
| Settlement.Loaded | src/pages/GameBot.tsx:187-189 | a missing balance row reads as zero available and zero locked |
| Settlement.Settle | src/pages/GameBot.tsx:181-204 | there is a row to write exactly when a user is signed in. A player win credits exactly twice the stake to `available`; a bot win leaves `available`. `locked` becomes `max(0, locked − stake)`, is never negative, and never grows for a non-negative stake and a non-negative stored lock |
| Settlement.SettleTotal | src/pages/GameBot.tsx:191-204 | when the whole stake was locked, the player's total balance rises by one stake on a win and falls by one stake on a loss |

## Left out

- React scheduling is not modelled: `useState`/`useEffect`, the 600 ms and 300 ms timers and their cancellation (lines 156, 173-178).
- The stale closures are not modelled. At line 157 `botAct` reads the bot's hand from before its draw. At lines 108-116 the nested discard update may run after the cards are served. As a result, the page's bot never plays the card it drew: the hand it searches at line 157 is one that `find` at line 150 already found unplayable, so after a draw the bot always passes the turn. `Rules.BotActDraws` and `Rules.TryDrawnEffect` state the intended behaviour, in which a playable drawn card is played. The model uses the sequential order the code intends.
- `settle`'s I/O is left out: the balance fetch, the update call and its error, the toasts and navigation (lines 181-206). Only the arithmetic is modelled, over exact reals rather than JavaScript floats.
- The `isSettling` flag (line 186, used at line 400) is left out. No claim is made that settlement happens at most once.
- `Math.random` and `uid` (lines 21, 49, 99, 126) are parameters: the `Rng` of a shuffle, the colour named for a wild card, and canonical positions as identifiers.
- The page's random fallback colour for a wild opening card (line 99) is the `fallback` parameter. It is never used, because a wild card is never turned up.
- The rake at line 72 is computed but never used, so it is not modelled.
- `mustDraw` (lines 211-214) and the rendering are UI only.
- The wild-colour dialog (lines 354-390) is the `chosen` parameter of `PlayCard`.
- Legality is a precondition of `PlayCard`, not a check inside it, because the page offers only legal cards (lines 330-343) and the bot pre-checks.
- A draw that finds too few cards serves fewer and signals nothing. The model does the same, so there is no shortfall signal to model.
- Rules.DealValid: the bottom of the draw pile equals the skipped wild cards only when at most 93 cards were skipped. A full deck holds just 8 wild cards, so this is always the case, but the contract states it conditionally.
- Settlement.SettleTotal: stated only when the whole stake was locked. Otherwise the clamp to zero makes the loss smaller.
