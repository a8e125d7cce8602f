/** Playable card effects. An attack damages the enemy, a heal heals the player and a compound
    plays its effects one after another, first to last. The open family of playable things
    is closed here into one datatype of these three kinds. */
module Effects {
  import Game

  datatype Effect =
    | Attack(damage: int)
    | Heal(amount: int)
    | Compound(effects: seq<Effect>)

  /** Reference definition: the total damage an effect deals to the enemy. */
  function TotalDamage(e: Effect): int
    decreases e
  {
    match e
    case Attack(damage) => damage
    case Heal(_) => 0
    case Compound(es) => TotalDamageAll(es)
  }

  function TotalDamageAll(es: seq<Effect>): int
    decreases es
  {
    if |es| == 0 then 0 else TotalDamage(es[0]) + TotalDamageAll(es[1..])
  }

  /** Reference definition: the total healing an effect gives the player. */
  function TotalHeal(e: Effect): int
    decreases e
  {
    match e
    case Attack(_) => 0
    case Heal(amount) => amount
    case Compound(es) => TotalHealAll(es)
  }

  function TotalHealAll(es: seq<Effect>): int
    decreases es
  {
    if |es| == 0 then 0 else TotalHeal(es[0]) + TotalHealAll(es[1..])
  }

  /** Applies an effect to the context. Playing an effect moves both sides' health by its
      totals and leaves energy and the turn counter alone. */
  function Play(e: Effect, c: Game.GameContext): (r: Game.GameContext)
    ensures r.playerHealth == c.playerHealth + TotalHeal(e)
    ensures r.enemyHealth == c.enemyHealth - TotalDamage(e)
    ensures r.energy == c.energy && r.turn == c.turn
    decreases e
  {
    match e
    case Attack(damage) => Game.DealDamage(c, damage)
    case Heal(amount) => Game.Heal(c, amount)
    case Compound(es) => PlayAll(es, c)
  }

  /** Plays the effects in order, each on the context the previous one left. */
  function PlayAll(es: seq<Effect>, c: Game.GameContext): (r: Game.GameContext)
    ensures r.playerHealth == c.playerHealth + TotalHealAll(es)
    ensures r.enemyHealth == c.enemyHealth - TotalDamageAll(es)
    ensures r.energy == c.energy && r.turn == c.turn
    decreases es
  {
    if |es| == 0 then c else PlayAll(es[1..], Play(es[0], c))
  }

  /** Playing a list in two parts plays the first part, then the second on the result. */
  lemma {:induction false} PlayAllAppend(a: seq<Effect>, b: seq<Effect>, c: Game.GameContext)
    ensures PlayAll(a + b, c) == PlayAll(b, PlayAll(a, c))
    decreases a
  {
    if |a| > 0 {
      assert (a + b)[0] == a[0];
      assert (a + b)[1..] == a[1..] + b;
      PlayAllAppend(a[1..], b, Play(a[0], c));
    } else {
      assert a + b == b;
    }
  }

  /** A compound nested inside another plays exactly as if its effects were spliced in. */
  lemma NestedCompoundFlattens(inner: seq<Effect>, outer: seq<Effect>, c: Game.GameContext)
    ensures Play(Compound([Compound(inner)] + outer), c) == Play(Compound(inner + outer), c)
  {
    var es := [Compound(inner)] + outer;
    assert es[0] == Compound(inner) && es[1..] == outer;
    PlayAllAppend(inner, outer, c);
  }

  /** Attack for 5 then heal for 3, from 10 health each: the player ends at 13 and the enemy
      at 5. */
  lemma AttackThenHealScenario()
    ensures Play(Compound([Attack(5), Heal(3)]), Game.New(10, 10))
      == Game.GameContext(13, 5, 0, 1)
  {
    var es := [Attack(5), Heal(3)];
    assert es[1..] == [Heal(3)] && es[1..][1..] == [];
  }
}
