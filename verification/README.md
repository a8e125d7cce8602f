# Deck-builder card engine, modelled in Dafny

This project models the card engine of a small deck-building game library. The engine has
four parts.

- **Cards.** A card is an immutable value with an id, a name, a description, an energy cost
  and a category (attack, skill or power).
- **Deck.** A deck has a draw pile and a discard pile. Each pile is an ordered sequence, and
  the top of the draw pile is its last element.
  - `shuffle` appends the discard pile to the draw pile and reverses the result. It does not
    randomise anything.
  - `draw` takes the top card. When the draw pile is empty, it shuffles once first.
  - Cards can also be discarded, drawn several at a time, peeked at, milled onto the discard
    pile, searched for by a predicate, or put at the bottom of the draw pile.
- **Game context.** This holds both sides' health, the energy left this turn and the turn
  counter. Damage and healing are unclamped. Spending energy is refused when there is not
  enough. A new turn resets the energy.
- **Playable effects.** An attack damages the enemy and a heal heals the player. A compound
  plays its effects in order.

Each Rust operation that mutates `&mut self` becomes a pure function. It returns the new
state, paired with the operation's result where there is one.

- `draw_multiple` and `mill` are also written as loop methods that follow the Rust loops. Each is
  proved equal to a recursive reference definition (`DrawN`, `MillN`).
- Card conservation is stated as a multiset equation in separate lemmas. It says that no
  operation creates or loses a card except the one it hands back or takes in.

Files:

- `wrappers.dfy`: the `Option` type.
- `cards.dfy`: `Card` and `CardType`. `Card::new` is the datatype constructor.
- `deck.dfy`: the deck operations and their conservation lemmas.
- `deck_lemmas.dfy`: properties relating several deck operations.
- `game.dfy`: `GameContext`, its operations and their properties.
- `effects.dfy`: playable effects.

## Model

| member | source | states |
|---|---|---|
| `Decks.New` | src/card.rs:101-106 | A new deck has the given cards as its draw pile, in the given order, and an empty discard pile. |
| `Decks.Shuffle` | src/card.rs:116-119 | After a shuffle the discard pile is empty and the draw pile holds as many cards as both piles held before. |
| `Decks.ShuffleOrder` | src/card.rs:116-119 | The old discard pile ends up at the bottom, reversed. The old draw pile ends up above it, also reversed, so its bottom card becomes the top card. |
| `Decks.ShuffleConserves` | src/card.rs:116-119 | Shuffling keeps exactly the same multiset of cards. |
| `Decks.Pop` | src/card.rs:130 | Popping the draw pile fails exactly when the pile is empty, and then nothing changes. Otherwise it returns the last card and keeps the rest of both piles. |
| `Decks.PopConserves` | src/card.rs:130 | A successful pop removes exactly the returned card from the deck. |
| `Decks.Draw` | src/card.rs:129-136 | A non-empty draw pile gives up its top card and the discard pile is untouched. An empty draw pile with a non-empty discard pile gives the first card discarded, and leaves the rest of the discard pile, reversed, as the draw pile. The result is None exactly when both piles are empty, and then nothing changes. Each successful draw shrinks the deck by one. |
| `Decks.DrawConserves` | src/card.rs:129-136 | A successful draw removes exactly the drawn card from the deck, including across the reshuffle. |
| `Decks.Discard` | src/card.rs:147-149 | Discarding appends the card to the discard pile, keeps the old discard pile as a prefix and leaves the draw pile alone. |
| `Decks.DiscardAdds` | src/card.rs:147-149 | Discarding adds exactly the discarded card to the deck. |
| `Decks.DrawN` | src/card.rs:159-169 | Drawing up to `count` cards returns min(count, deck size) cards, reshuffling whenever needed. |
| `Decks.DrawNConserves` | src/card.rs:159-169 | The cards drawn, together with the cards left in the deck, are exactly the cards the deck held. |
| `Decks.DrawMultiple` | src/card.rs:159-169 | The loop that draws until `count` is reached or the deck runs out computes the same result as the reference definition. It returns min(count, size) cards and conserves cards. |
| `Decks.Peek` | src/card.rs:179-181 | Peeking returns min(count, draw pile size) cards. Element i is the i-th card from the top. The discard pile is never consulted. |
| `Decks.MillOne` | src/card.rs:194-196 | One milling step fails, with nothing changed, exactly when the draw pile is empty. Otherwise it moves the top card onto the end of the discard pile. |
| `Decks.MillN` | src/card.rs:191-202 | Milling moves min(count, draw pile size) cards without reshuffling. The draw pile loses them from its top and the discard pile gains them, in the order they were milled. |
| `Decks.MillNConserves` | src/card.rs:191-202 | Milling keeps exactly the same multiset of cards in the deck. |
| `Decks.Mill` | src/card.rs:191-202 | The milling loop computes the reference definition. The returned cards are the new suffix of the discard pile, and cards are conserved. |
| `Decks.Position` | src/card.rs:216 | The position found is the lowest index whose card satisfies the predicate. When there is none, no card satisfies it. |
| `Decks.Search` | src/card.rs:212-221 | Search fails exactly when no draw-pile card satisfies the predicate, and then nothing changes. Otherwise it removes the lowest-index matching card and keeps the others in order. The discard pile is never touched, and exactly the returned card leaves the deck. |
| `Decks.MoveToBottom` | src/card.rs:232-234 | The card is put at index 0 of the draw pile, the old draw pile follows it, and the discard pile is untouched. Exactly that card is added. |
| `DeckProperties.ShuffleTwice` | src/card.rs:116-119 | Shuffling twice gives back the draw pile followed by the discard pile, unreversed. |
| `DeckProperties.ShuffleWithEmptyDiscard` | src/card.rs:116-119 | With nothing discarded, a shuffle only reverses the draw pile and keeps its cards. |
| `DeckProperties.DrawSingleton` | src/card.rs:129-136 | A deck of one card draws that card and is then empty. |
| `DeckProperties.DrawDiscardScenario` | src/card.rs:129-149 | From draw pile [A, B, C], the draws give C, then B. After discarding B, a draw gives A, and the next draw reshuffles and gives B. |
| `DeckProperties.PeekStep` | src/card.rs:179-181 | Peeking shows the top card, followed by what peeking shows once that card is gone. |
| `DeckProperties.PeekWholePile` | src/card.rs:179-181 | Peeking at least as deep as the draw pile shows the whole pile reversed. |
| `DeckProperties.DrawWithinPileIsPeek` | src/card.rs:159-181 | While the draw pile holds enough cards, drawing several returns exactly what peek shows and does not reshuffle. |
| `DeckProperties.NewDeckDrawOrder` | src/card.rs:101-169 | Drawing every card of a new deck gives the cards in reverse order and leaves both piles empty. |
| `DeckProperties.DrawPastEnd` | src/card.rs:159-169 | Asking for at least as many cards as the deck holds returns every card and empties both piles. |
| `DeckProperties.MillReturnsPeek` | src/card.rs:179-202 | The cards milled are exactly the cards peek shows, in the same order. |
| `DeckProperties.MillNeverReshuffles` | src/card.rs:191-202 | With an empty draw pile, milling does nothing, whatever was discarded. Drawing from the same deck would reshuffle. |
| `DeckProperties.MillPastEnd` | src/card.rs:191-202 | Milling past the end moves the whole draw pile, top first, onto the discard pile. |
| `DeckProperties.MoveToBottomComesLast` | src/card.rs:179-234 | A card moved to the bottom is seen after every card already in the draw pile. |
| `DeckProperties.SearchRestorable` | src/card.rs:212-221 | Putting the found card back at its index restores the original draw pile. |
| `Game.New` | src/card.rs:253-260 | A new context has the given health values, zero energy, and is on turn 1. |
| `Game.DealDamage` | src/card.rs:270-272 | Damage lowers only the enemy's health, by exactly the amount, with no clamping. |
| `Game.Heal` | src/card.rs:281-283 | Healing raises only the player's health, by exactly the amount, with no cap. |
| `Game.SpendEnergy` | src/card.rs:293-300 | Spending succeeds exactly when enough energy is left. On success energy drops by the amount. On failure nothing changes. Health and the turn are never touched. |
| `Game.NewTurn` | src/card.rs:322-325 | A new turn increments the turn counter and sets energy to the maximum, replacing any leftover. Health is untouched. |
| `Game.IsGameOver` | src/card.rs:310-312 | The fight goes on exactly while both sides have health above 0, so it is over exactly when either health is at most 0. |
| `Game.FreshContextSpendsNothing` | src/card.rs:253-300 | A new context accepts only a payment of zero. |
| `Game.SpendInTwoSteps` | src/card.rs:293-300 | Paying a and then b succeeds exactly when paying a + b does, and leaves the same context. |
| `Game.NewTurnResetsEnergy` | src/card.rs:293-325 | Spending before a new turn makes no difference to the context after it. |
| `Game.DamageAndHealIndependent` | src/card.rs:270-283 | Damage and healing commute. Each is undone by the negated amount. |
| `Game.DamageAdds` | src/card.rs:270-272 | Two hits leave the enemy where one hit of their sum would. |
| `Game.DamageToZeroEndsGame` | src/card.rs:270-312 | Damage equal to the enemy's health brings it to 0 and ends the game. |
| `Game.HealNeverDefeats` | src/card.rs:281-312 | Non-negative healing never ends a game that was still going. |
| `Game.NegativeHealCanDefeat` | src/card.rs:281-312 | A negative heal is accepted and can end the game. |
| `Game.GameOverOnlyByHealth` | src/card.rs:293-325 | Spending energy and starting a turn never change whether the game is over. |
| `Game.OverkillScenario` | src/card.rs:253-312 | At 30 health each, 35 damage leaves the enemy at -5 and the game over. |
| `Effects.Play` | src/card.rs:352-382 | An effect changes the player's health by its total healing and the enemy's by its total damage, and leaves energy and turn unchanged. |
| `Effects.PlayAll` | src/card.rs:376-382 | A compound's effects, played in order, move health by the sums of their totals. |
| `Effects.PlayAllAppend` | src/card.rs:376-382 | Playing a + b is playing a, then b on the result, so effects run left to right. |
| `Effects.NestedCompoundFlattens` | src/card.rs:376-382 | A compound nested first in another plays as if its effects were spliced in. |
| `Effects.AttackThenHealScenario` | src/card.rs:352-382 | Attack 5 then heal 3, from 10 health each, leaves the player at 13 and the enemy at 5. |

## Left out

- Game.DealDamage: health is an unbounded integer. The 32-bit signed overflow of `enemy_health -= amount` is not modelled: it panics in a debug build and wraps in a release build.
- Game.Heal: the 32-bit signed overflow of `player_health += amount` is not modelled, for the same reason.
- Game.NewTurn: the turn counter is an unbounded natural. The 32-bit unsigned overflow of `turn += 1` is not modelled.
- Effects.Play: the integer overflow noted above for damage and healing is not modelled. This is also why the order of effects cannot change the final health here, whereas in the Rust code it could decide where an overflow happens.
- Playable is an open trait of boxed trait objects. It is modelled as a closed datatype with the three kinds of effect that the file defines.
- The `card: Card` field of AttackCard, HealCard and CompoundCard is not modelled, because `play` never reads it.
- Card ids and costs are unbounded naturals rather than `u32`. No operation does arithmetic on them.
- Card ids are not checked for uniqueness, matching the source.
- `peek` returns references into the draw pile. The model returns the card values, which are immutable.
- The search predicate is modelled as a total, side-effect-free function on cards.
- Decks.DrawMultiple: the count is an unbounded natural rather than `usize`. `draw_multiple` first reserves room for `count` cards with `Vec::with_capacity`. A count whose byte size exceeds `isize::MAX` (for example `usize::MAX`) panics with a capacity overflow, and a count too large to allocate aborts the program; either way nothing is drawn. The model instead returns min(count, size) cards for every natural count.
- Decks.DrawN: the same capacity panic or abort for counts that cannot be allocated is not modelled. The reference definition returns min(count, size) cards for every natural count.
- Decks.Mill: `mill` reserves room for `count` cards in the same way, so a count that cannot be allocated panics or aborts before any card moves. The model instead mills min(count, draw pile size) cards for every natural count.
- Decks.MillN: the same capacity panic or abort is not modelled. The reference definition mills min(count, draw pile size) cards for every natural count.
- `src/ui.rs` is not part of this model. It holds wrappers for egui widgets and layouts in a graphical toolkit, and does not use the card engine.
- `src/ui_image.rs` is not part of this model. It loads images and GIFs and renders them as egui textures.
- `src/audio.rs` is not part of this model. It plays music and sound effects through an audio engine.
- `src/main.rs` is not part of this model. It is the demo binary, built on the UI, image and audio helpers, and it does not use the card engine.
- `src/lib.rs` is not part of this model. It only declares the crate's modules.
