/** The state of a fight: both sides' health, the energy left this turn and the turn number.
    Health is a signed amount that may go to zero or below; energy and the turn counter are
    unsigned. Every operation is a pure function from a context to the next context. */
module Game {

  datatype GameContext = GameContext(playerHealth: int, enemyHealth: int, energy: nat, turn: nat)

  /** A fight about to start: no energy yet, and it is the first turn. */
  function New(playerHealth: int, enemyHealth: int): (c: GameContext)
    ensures c.playerHealth == playerHealth && c.enemyHealth == enemyHealth
    ensures c.energy == 0 && c.turn == 1
  {
    GameContext(playerHealth, enemyHealth, 0, 1)
  }

  /** Lowers the enemy's health by `amount`, without clamping at zero. A negative amount
      raises it. Nothing else changes. */
  function DealDamage(c: GameContext, amount: int): (r: GameContext)
    ensures r.enemyHealth + amount == c.enemyHealth
    ensures r.playerHealth == c.playerHealth && r.energy == c.energy && r.turn == c.turn
  {
    c.(enemyHealth := c.enemyHealth - amount)
  }

  /** Raises the player's health by `amount`, with no upper cap. A negative amount lowers it.
      Nothing else changes. */
  function Heal(c: GameContext, amount: int): (r: GameContext)
    ensures r.playerHealth - amount == c.playerHealth
    ensures r.enemyHealth == c.enemyHealth && r.energy == c.energy && r.turn == c.turn
  {
    c.(playerHealth := c.playerHealth + amount)
  }

  /** Spends `amount` energy if that much is left, and reports whether it did. A refused
      payment leaves the context exactly as it was, so energy never drops below zero. */
  function SpendEnergy(c: GameContext, amount: nat): (r: (bool, GameContext))
    ensures r.0 <==> amount <= c.energy
    ensures r.0 ==> r.1.energy + amount == c.energy
    ensures !r.0 ==> r.1 == c
    ensures r.1.playerHealth == c.playerHealth && r.1.enemyHealth == c.enemyHealth
    ensures r.1.turn == c.turn
  {
    if c.energy >= amount then (true, c.(energy := c.energy - amount)) else (false, c)
  }

  /** The fight is over once either side has no health left. */
  predicate IsGameOver(c: GameContext)
    ensures !IsGameOver(c) <==> c.playerHealth > 0 && c.enemyHealth > 0
  {
    c.playerHealth <= 0 || c.enemyHealth <= 0
  }

  /** Advances to the next turn and sets the energy to `maxEnergy`; whatever energy was left
      over is discarded, not carried forward. */
  function NewTurn(c: GameContext, maxEnergy: nat): (r: GameContext)
    ensures r.turn == c.turn + 1 && r.energy == maxEnergy
    ensures r.playerHealth == c.playerHealth && r.enemyHealth == c.enemyHealth
  {
    c.(turn := c.turn + 1, energy := maxEnergy)
  }

  /** A context fresh from `New` holds no energy, so the only payment it accepts is zero. */
  lemma FreshContextSpendsNothing(playerHealth: int, enemyHealth: int, amount: nat)
    ensures SpendEnergy(New(playerHealth, enemyHealth), amount).0 <==> amount == 0
  {
  }

  /** Paying `a` and then `b` succeeds exactly when paying `a + b` at once does, and then
      leaves the same context. */
  lemma SpendInTwoSteps(c: GameContext, a: nat, b: nat)
    ensures var (ok1, c1) := SpendEnergy(c, a);
      var (ok2, c2) := SpendEnergy(c1, b);
      && (ok1 && ok2 <==> SpendEnergy(c, a + b).0)
      && (ok1 && ok2 ==> c2 == SpendEnergy(c, a + b).1)
  {
  }

  /** A new turn forgets what was spent before it: spending first and then starting a turn
      gives the same context as starting the turn straight away. */
  lemma NewTurnResetsEnergy(c: GameContext, amount: nat, maxEnergy: nat)
    ensures NewTurn(SpendEnergy(c, amount).1, maxEnergy) == NewTurn(c, maxEnergy)
  {
  }

  /** Damage and healing touch different sides, so their order does not matter, and each
      is undone by the same amount negated. */
  lemma DamageAndHealIndependent(c: GameContext, damage: int, heal: int)
    ensures DealDamage(Heal(c, heal), damage) == Heal(DealDamage(c, damage), heal)
    ensures DealDamage(DealDamage(c, damage), -damage) == c
    ensures Heal(Heal(c, heal), -heal) == c
  {
  }

  /** Two hits add up: they leave the enemy where one hit of the summed damage would. */
  lemma DamageAdds(c: GameContext, a: int, b: int)
    ensures DealDamage(DealDamage(c, a), b) == DealDamage(c, a + b)
  {
  }

  /** Damage equal to the enemy's remaining health ends the fight. */
  lemma DamageToZeroEndsGame(c: GameContext)
    ensures DealDamage(c, c.enemyHealth).enemyHealth == 0
    ensures IsGameOver(DealDamage(c, c.enemyHealth))
  {
  }

  /** Healing by a non-negative amount never ends a fight that was still going; a negative
      amount, which nothing rejects, can. */
  lemma HealNeverDefeats(c: GameContext, amount: int)
    requires amount >= 0
    ensures IsGameOver(Heal(c, amount)) ==> IsGameOver(c)
  {
  }

  /** Heal accepts a negative amount and then behaves as damage to the player. */
  lemma NegativeHealCanDefeat()
    ensures !IsGameOver(New(5, 5)) && IsGameOver(Heal(New(5, 5), -5))
  {
  }

  /** Whether the fight is over depends only on health: spending energy and new turns do not
      change it. */
  lemma GameOverOnlyByHealth(c: GameContext, amount: nat, maxEnergy: nat)
    ensures IsGameOver(SpendEnergy(c, amount).1) == IsGameOver(c)
    ensures IsGameOver(NewTurn(c, maxEnergy)) == IsGameOver(c)
  {
  }

  /** Overkill: a fight at 30 health each, after 35 damage, leaves the enemy at -5 and the
      fight over. */
  lemma OverkillScenario()
    ensures DealDamage(New(30, 30), 35).enemyHealth == -5
    ensures IsGameOver(DealDamage(New(30, 30), 35))
  {
  }
}
