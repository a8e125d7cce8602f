/** Card values: the immutable unit that moves between the piles of a deck. */
module Cards {

  /** Card identifiers are `u32` in the Rust card module; uniqueness is the caller's concern. */
  type CardId = nat

  /** The category of a card. */
  datatype CardType = Attack | Skill | Power

  /** A card. Name and description are display text; the cost is an unvalidated energy cost.
      A clone of a card is the same value here. */
  datatype Card = Card(id: CardId, name: string, description: string, cost: nat, cardType: CardType)
}
