/** The deck: a draw pile and a discard pile of cards. The top of the draw pile is the
    END of its sequence; the discard pile grows at its end. Every operation is a pure
    function from a deck to a result and the deck it leaves behind.

    Function contracts state where cards go, position by position; that no card is created
    or lost is stated separately, by the conservation lemmas next to each operation. */
module Decks {
  import opened Wrappers
  import opened Cards

  datatype Deck = Deck(drawPile: seq<Card>, discardPile: seq<Card>)

  /** Every card the deck holds, whichever pile it lies in. */
  function AllCards(d: Deck): multiset<Card> {
    multiset(d.drawPile) + multiset(d.discardPile)
  }

  /** The number of cards in both piles. */
  function Size(d: Deck): nat {
    |d.drawPile| + |d.discardPile|
  }

  function Min(a: nat, b: nat): nat {
    if a <= b then a else b
  }

  /** The sequence in the opposite order. */
  function Reverse<T>(s: seq<T>): (r: seq<T>)
    ensures |r| == |s|
  {
    if |s| == 0 then [] else Reverse(s[1..]) + [s[0]]
  }

  /** Element `i` of the reverse is element `|s| - 1 - i` of the original. */
  lemma {:induction false} ReverseIndex<T>(s: seq<T>)
    ensures forall i :: 0 <= i < |s| ==> Reverse(s)[i] == s[|s| - 1 - i]
  {
    if |s| > 0 {
      ReverseIndex(s[1..]);
    }
  }

  /** Reversing keeps every element: the multiset is unchanged. */
  lemma {:induction false} ReverseCards<T>(s: seq<T>)
    ensures multiset(Reverse(s)) == multiset(s)
  {
    if |s| > 0 {
      ReverseCards(s[1..]);
      assert s == [s[0]] + s[1..];
    }
  }

  /** A deck holding `cards` as its draw pile (last card on top) and nothing discarded. */
  function New(cards: seq<Card>): (d: Deck)
    ensures d.discardPile == [] && d.drawPile == cards
    ensures AllCards(d) == multiset(cards)
  {
    Deck(cards, [])
  }

  /** Appends the discard pile to the draw pile and reverses the result. Nothing is
      randomised. */
  function Shuffle(d: Deck): (r: Deck)
    ensures r.discardPile == []
    ensures |r.drawPile| == Size(d)
  {
    Deck(Reverse(d.drawPile + d.discardPile), [])
  }

  /** Where each card lands when the deck is shuffled: the old discard pile ends up at the
      bottom in reverse order and the old draw pile above it, also reversed, so the old
      bottom card of the draw pile becomes the top card. */
  lemma ShuffleOrder(d: Deck)
    ensures forall i :: 0 <= i < |d.discardPile| ==>
      Shuffle(d).drawPile[i] == d.discardPile[|d.discardPile| - 1 - i]
    ensures forall i :: |d.discardPile| <= i < Size(d) ==>
      Shuffle(d).drawPile[i] == d.drawPile[Size(d) - 1 - i]
  {
    ReverseIndex(d.drawPile + d.discardPile);
  }

  /** Shuffling neither creates nor loses a card. */
  lemma ShuffleConserves(d: Deck)
    ensures AllCards(Shuffle(d)) == AllCards(d)
  {
    ReverseCards(d.drawPile + d.discardPile);
  }

  /** Removes the top card of the draw pile, if any; the discard pile is not consulted. */
  function Pop(d: Deck): (r: (Option<Card>, Deck))
    ensures r.0.None? <==> |d.drawPile| == 0
    ensures r.0.None? ==> r.1 == d
    ensures r.0.Some? ==>
      && r.0.value == d.drawPile[|d.drawPile| - 1]
      && r.1 == Deck(d.drawPile[..|d.drawPile| - 1], d.discardPile)
  {
    if |d.drawPile| == 0 then (None, d)
    else
      var n := |d.drawPile| - 1;
      (Some(d.drawPile[n]), Deck(d.drawPile[..n], d.discardPile))
  }

  /** Draws the top card; when the draw pile is empty it shuffles first and tries once more. */
  function Draw(d: Deck): (r: (Option<Card>, Deck))
    ensures |d.drawPile| > 0 ==>
      && r.0 == Some(d.drawPile[|d.drawPile| - 1])
      && r.1 == Deck(d.drawPile[..|d.drawPile| - 1], d.discardPile)
    ensures |d.drawPile| == 0 && |d.discardPile| > 0 ==>
      && r.0 == Some(d.discardPile[0])
      && r.1 == Deck(Reverse(d.discardPile[1..]), [])
    ensures r.0.None? <==> Size(d) == 0
    ensures r.0.None? ==> r.1 == d
    ensures r.0.Some? ==> Size(r.1) + 1 == Size(d)
  {
    var (c, d1) := Pop(d);
    if c.Some? then (c, d1)
    else
      assert d.drawPile + d.discardPile == d.discardPile;
      Pop(Shuffle(d1))
  }

  /** Popping takes exactly the card it returns out of the deck. */
  lemma PopConserves(d: Deck)
    requires |d.drawPile| > 0
    ensures AllCards(d) == AllCards(Pop(d).1) + multiset{Pop(d).0.value}
  {
    var n := |d.drawPile| - 1;
    assert d.drawPile == d.drawPile[..n] + [d.drawPile[n]];
  }

  /** A draw takes exactly the card it returns out of the deck; a failed draw changes nothing. */
  lemma DrawConserves(d: Deck)
    ensures Draw(d).0.Some? ==> AllCards(d) == AllCards(Draw(d).1) + multiset{Draw(d).0.value}
    ensures Draw(d).0.None? ==> Draw(d).1 == d
  {
    if |d.drawPile| > 0 {
      PopConserves(d);
    } else if |d.discardPile| > 0 {
      ShuffleConserves(d);
      PopConserves(Shuffle(d));
      assert Draw(d) == Pop(Shuffle(d));
    }
  }

  /** Puts `c` on the end of the discard pile. */
  function Discard(d: Deck, c: Card): (r: Deck)
    ensures r.drawPile == d.drawPile
    ensures |r.discardPile| == |d.discardPile| + 1
    ensures r.discardPile[..|d.discardPile|] == d.discardPile
    ensures r.discardPile[|d.discardPile|] == c
  {
    Deck(d.drawPile, d.discardPile + [c])
  }

  /** Discarding adds exactly the discarded card to the deck. */
  lemma DiscardAdds(d: Deck, c: Card)
    ensures AllCards(Discard(d, c)) == AllCards(d) + multiset{c}
  {
    assert Discard(d, c).discardPile == d.discardPile + [c];
  }

  /** Reference definition of drawing up to `count` cards: draw one at a time, reshuffling as
      `Draw` does, and stop early once both piles are exhausted. Cards come back in draw order. */
  function DrawN(d: Deck, count: nat): (r: (seq<Card>, Deck))
    ensures |r.0| == Min(count, Size(d))
    decreases count
  {
    if count == 0 then ([], d)
    else
      var (c, d1) := Draw(d);
      if c.None? then ([], d1)
      else
        var (rest, d2) := DrawN(d1, count - 1);
        ([c.value] + rest, d2)
  }

  /** The cards drawn plus the cards left in the deck are exactly the cards the deck held. */
  lemma {:induction false} DrawNConserves(d: Deck, count: nat)
    ensures AllCards(d) == multiset(DrawN(d, count).0) + AllCards(DrawN(d, count).1)
    decreases count
  {
    if count > 0 && Draw(d).0.Some? {
      DrawNConserves(Draw(d).1, count - 1);
      DrawNConservesStep(d, count);
    } else {
      DrawNConservesBase(d, count);
    }
  }

  /** The base case of `DrawNConserves`: nothing is drawn and nothing changes. */
  lemma DrawNConservesBase(d: Deck, count: nat)
    requires count == 0 || Draw(d).0.None?
    ensures AllCards(d) == multiset(DrawN(d, count).0) + AllCards(DrawN(d, count).1)
  {
    assert DrawN(d, count) == ([], d);
  }

  /** The inductive step of `DrawNConserves`: one draw, then the rest. */
  lemma DrawNConservesStep(d: Deck, count: nat)
    requires count > 0 && Draw(d).0.Some?
    requires var rest := DrawN(Draw(d).1, count - 1);
      AllCards(Draw(d).1) == multiset(rest.0) + AllCards(rest.1)
    ensures AllCards(d) == multiset(DrawN(d, count).0) + AllCards(DrawN(d, count).1)
  {
    var step := Draw(d);
    var rest := DrawN(step.1, count - 1);
    DrawNUnfold(d, count);
    DrawConserves(d);
    PrependConserves(AllCards(d), AllCards(step.1), step.0.value, rest.0, AllCards(rest.1));
  }

  /** Taking `v` out and then the cards of `rest` out leaves what taking out `[v] + rest` leaves. */
  lemma PrependConserves(all: multiset<Card>, mid: multiset<Card>, v: Card, rest: seq<Card>, last: multiset<Card>)
    requires all == mid + multiset{v}
    requires mid == multiset(rest) + last
    ensures all == multiset([v] + rest) + last
  {
    assert multiset([v] + rest) == multiset{v} + multiset(rest);
  }

  /** One successful draw followed by the remaining draws is what `DrawN` does. */
  lemma DrawNUnfold(d: Deck, count: nat)
    requires count > 0 && Draw(d).0.Some?
    ensures DrawN(d, count)
      == ([Draw(d).0.value] + DrawN(Draw(d).1, count - 1).0, DrawN(Draw(d).1, count - 1).1)
  {
  }

  /** What the loop of `DrawMultiple` keeps: the cards drawn so far, followed by what is
      left to draw from the current deck, are what `DrawN` draws from the original one. */
  predicate DrawLoopInv(d: Deck, count: nat, drawn: seq<Card>, after: Deck, i: nat) {
    && i <= count
    && drawn + DrawN(after, count - i).0 == DrawN(d, count).0
    && DrawN(after, count - i).1 == DrawN(d, count).1
  }

  /** Nothing drawn yet: the invariant holds of the original deck. */
  lemma DrawLoopStart(d: Deck, count: nat)
    ensures DrawLoopInv(d, count, [], d, 0)
  {
    assert [] + DrawN(d, count).0 == DrawN(d, count).0;
  }

  /** Pushing `c` and then appending `rest` appends `[c] + rest`. */
  lemma AppendStep<T>(s: seq<T>, c: T, rest: seq<T>)
    ensures (s + [c]) + rest == s + ([c] + rest)
  {
  }

  /** One more card drawn keeps the loop invariant. */
  lemma DrawLoopStep(d: Deck, count: nat, drawn: seq<Card>, after: Deck, i: nat)
    requires DrawLoopInv(d, count, drawn, after, i) && i < count
    requires Draw(after).0.Some?
    ensures DrawLoopInv(d, count, drawn + [Draw(after).0.value], Draw(after).1, i + 1)
  {
    var (c, next) := Draw(after);
    assert DrawN(after, count - i).0 == [c.value] + DrawN(next, count - i - 1).0;
    AppendStep(drawn, c.value, DrawN(next, count - i - 1).0);
  }

  /** Once the deck is exhausted, or the count reached, nothing more is drawn. */
  lemma DrawLoopDone(d: Deck, count: nat, drawn: seq<Card>, after: Deck, i: nat)
    requires DrawLoopInv(d, count, drawn, after, i)
    requires i == count || Draw(after).0.None?
    ensures (drawn, after) == DrawN(d, count)
  {
    assert DrawN(after, count - i) == ([], after);
    assert drawn + [] == drawn;
  }

  /** Draws up to `count` cards with the loop of `Deck::draw_multiple`. */
  method DrawMultiple(d: Deck, count: nat) returns (drawn: seq<Card>, after: Deck)
    ensures (drawn, after) == DrawN(d, count)
    ensures |drawn| == Min(count, Size(d))
    ensures AllCards(d) == multiset(drawn) + AllCards(after)
  {
    drawn := [];
    after := d;
    DrawLoopStart(d, count);
    var i := 0;
    while i < count
      invariant DrawLoopInv(d, count, drawn, after, i)
    {
      var step := Draw(after);
      if step.0.None? {
        break;
      }
      DrawLoopStep(d, count, drawn, after, i);
      drawn := drawn + [step.0.value];
      after := step.1;
      i := i + 1;
    }
    DrawLoopDone(d, count, drawn, after, i);
    DrawNConserves(d, count);
  }

  /** The top `count` cards of the draw pile, top first, or the whole pile when it is shorter.
      The discard pile is never consulted and nothing is reshuffled. */
  function Peek(d: Deck, count: nat): (r: seq<Card>)
    ensures |r| == Min(count, |d.drawPile|)
    ensures forall i :: 0 <= i < |r| ==> r[i] == d.drawPile[|d.drawPile| - 1 - i]
  {
    var n := |d.drawPile|;
    seq(Min(count, n), i requires 0 <= i < Min(count, n) => d.drawPile[n - 1 - i])
  }

  /** One round of the loop of `Deck::mill`: pop the top of the draw pile and push it onto
      the discard pile. Nothing happens when the draw pile is empty. */
  function MillOne(d: Deck): (r: (Option<Card>, Deck))
    ensures r.0.None? <==> |d.drawPile| == 0
    ensures r.0.None? ==> r.1 == d
    ensures r.0.Some? ==>
      && r.0.value == d.drawPile[|d.drawPile| - 1]
      && r.1 == Deck(d.drawPile[..|d.drawPile| - 1], d.discardPile + [r.0.value])
  {
    var (c, d1) := Pop(d);
    if c.None? then (None, d1) else (c, Discard(d1, c.value))
  }

  /** Reference definition of milling: move the top card onto the discard pile up to `count`
      times, stopping when the draw pile runs out (never reshuffling), and return the
      moved cards in the order they were moved. */
  function MillN(d: Deck, count: nat): (r: (seq<Card>, Deck))
    ensures |r.0| == Min(count, |d.drawPile|)
    ensures d.drawPile == r.1.drawPile + Reverse(r.0)
    ensures r.1.discardPile == d.discardPile + r.0
    decreases count
  {
    if count == 0 then ([], d)
    else
      var (c, d1) := MillOne(d);
      if c.None? then ([], d1)
      else
        var (rest, d2) := MillN(d1, count - 1);
        MillStepOrder(d.drawPile, d1.drawPile, c.value, d2.drawPile, rest);
        AppendStep(d.discardPile, c.value, rest);
        ([c.value] + rest, d2)
  }

  /** The order bookkeeping behind one round of milling: a pile that lost its top card `c`,
      and whose remainder splits as `left` followed by the reverse of `milled`, splits as
      `left` followed by the reverse of `[c] + milled`. */
  lemma MillStepOrder<T>(pile: seq<T>, popped: seq<T>, c: T, left: seq<T>, milled: seq<T>)
    requires |pile| > 0 && popped == pile[..|pile| - 1] && c == pile[|pile| - 1]
    requires popped == left + Reverse(milled)
    ensures pile == left + Reverse([c] + milled)
  {
    assert ([c] + milled)[1..] == milled;
    assert pile == popped + [c];
  }

  /** Milling moves cards between the piles; the deck holds the same cards afterwards. */
  lemma MillNConserves(d: Deck, count: nat)
    ensures AllCards(MillN(d, count).1) == AllCards(d)
  {
    var (milled, after) := MillN(d, count);
    ReverseCards(milled);
    assert multiset(d.drawPile) == multiset(after.drawPile) + multiset(Reverse(milled));
    assert multiset(after.discardPile) == multiset(d.discardPile) + multiset(milled);
  }

  /** What the loop of `Mill` keeps: the cards milled so far, followed by what is left to
      mill from the current deck, are what `MillN` mills from the original one. */
  predicate MillLoopInv(d: Deck, count: nat, milled: seq<Card>, after: Deck, i: nat) {
    && i <= count
    && milled + MillN(after, count - i).0 == MillN(d, count).0
    && MillN(after, count - i).1 == MillN(d, count).1
  }

  /** Nothing milled yet: the invariant holds of the original deck. */
  lemma MillLoopStart(d: Deck, count: nat)
    ensures MillLoopInv(d, count, [], d, 0)
  {
    assert [] + MillN(d, count).0 == MillN(d, count).0;
  }

  /** One more card milled keeps the loop invariant. */
  lemma MillLoopStep(d: Deck, count: nat, milled: seq<Card>, after: Deck, i: nat)
    requires MillLoopInv(d, count, milled, after, i) && i < count
    requires MillOne(after).0.Some?
    ensures MillLoopInv(d, count, milled + [MillOne(after).0.value], MillOne(after).1, i + 1)
  {
    var (c, next) := MillOne(after);
    assert MillN(after, count - i).0 == [c.value] + MillN(next, count - i - 1).0;
    AppendStep(milled, c.value, MillN(next, count - i - 1).0);
  }

  /** Once the draw pile is exhausted, or the count reached, nothing more is milled. */
  lemma MillLoopDone(d: Deck, count: nat, milled: seq<Card>, after: Deck, i: nat)
    requires MillLoopInv(d, count, milled, after, i)
    requires i == count || MillOne(after).0.None?
    ensures (milled, after) == MillN(d, count)
  {
    assert MillN(after, count - i) == ([], after);
    assert milled + [] == milled;
  }

  /** Mills up to `count` cards with the loop of `Deck::mill`. */
  method Mill(d: Deck, count: nat) returns (milled: seq<Card>, after: Deck)
    ensures (milled, after) == MillN(d, count)
    ensures |milled| == Min(count, |d.drawPile|)
    ensures after.discardPile == d.discardPile + milled
    ensures AllCards(after) == AllCards(d)
  {
    milled := [];
    after := d;
    MillLoopStart(d, count);
    var i := 0;
    while i < count
      invariant MillLoopInv(d, count, milled, after, i)
    {
      var step := MillOne(after);
      if step.0.None? {
        break;
      }
      MillLoopStep(d, count, milled, after, i);
      milled := milled + [step.0.value];
      after := step.1;
      i := i + 1;
    }
    MillLoopDone(d, count, milled, after, i);
    MillNConserves(d, count);
  }

  /** `i` is the lowest index of `s` whose element satisfies `p`. */
  predicate IsFirstMatch<T>(s: seq<T>, p: T -> bool, i: int) {
    && 0 <= i < |s|
    && p(s[i])
    && forall j :: 0 <= j < i ==> !p(s[j])
  }

  /** The lowest index whose element satisfies `p`, if there is one. */
  function Position<T>(s: seq<T>, p: T -> bool): (r: Option<nat>)
    ensures r.Some? ==> IsFirstMatch(s, p, r.value)
    ensures r.None? ==> forall j :: 0 <= j < |s| ==> !p(s[j])
  {
    if |s| == 0 then None
    else if p(s[0]) then Some(0)
    else
      match Position(s[1..], p)
      case None => None
      case Some(i) => Some(i + 1)
  }

  /** Removes and returns the first card of the draw pile, counted from the bottom, that
      satisfies `p`. The discard pile is never searched or changed. */
  function Search(d: Deck, p: Card -> bool): (r: (Option<Card>, Deck))
    ensures r.0.None? <==> forall j :: 0 <= j < |d.drawPile| ==> !p(d.drawPile[j])
    ensures r.0.None? ==> r.1 == d
    ensures r.0.Some? ==> exists i ::
      && IsFirstMatch(d.drawPile, p, i)
      && r.0.value == d.drawPile[i]
      && r.1.drawPile == d.drawPile[..i] + d.drawPile[i + 1..]
    ensures r.0.Some? ==> AllCards(d) == AllCards(r.1) + multiset{r.0.value}
    ensures r.1.discardPile == d.discardPile
  {
    match Position(d.drawPile, p)
    case None => (None, d)
    case Some(i) =>
      assert d.drawPile == d.drawPile[..i] + [d.drawPile[i]] + d.drawPile[i + 1..];
      (Some(d.drawPile[i]), Deck(d.drawPile[..i] + d.drawPile[i + 1..], d.discardPile))
  }

  /** Inserts `c` at the bottom of the draw pile, the end farthest from the top. */
  function MoveToBottom(d: Deck, c: Card): (r: Deck)
    ensures |r.drawPile| == |d.drawPile| + 1
    ensures r.drawPile[0] == c && r.drawPile[1..] == d.drawPile
    ensures r.discardPile == d.discardPile
    ensures AllCards(r) == AllCards(d) + multiset{c}
  {
    Deck([c] + d.drawPile, d.discardPile)
  }
}
