/** Properties that relate several deck operations to one another. */
module DeckProperties {
  import opened Wrappers
  import opened Cards
  import opened Decks

  lemma ReverseReverse<T>(s: seq<T>)
    ensures Reverse(Reverse(s)) == s
  {
    ReverseIndex(s);
    ReverseIndex(Reverse(s));
  }

  /** Shuffling twice undoes the reversal: the draw pile is the old draw pile with the old
      discard pile stacked on top of it. */
  lemma ShuffleTwice(d: Deck)
    ensures Shuffle(Shuffle(d)) == Deck(d.drawPile + d.discardPile, [])
  {
    assert Shuffle(d).drawPile + [] == Shuffle(d).drawPile;
    ReverseReverse(d.drawPile + d.discardPile);
  }

  /** With nothing discarded, shuffling only reverses the draw pile; the cards are the same. */
  lemma ShuffleWithEmptyDiscard(d: Deck)
    requires d.discardPile == []
    ensures Shuffle(d) == Deck(Reverse(d.drawPile), [])
    ensures multiset(Shuffle(d).drawPile) == multiset(d.drawPile)
  {
    assert d.drawPile + d.discardPile == d.drawPile;
    ReverseCards(d.drawPile);
  }

  /** A deck of one card yields that card and is then empty. */
  lemma DrawSingleton(c: Card)
    ensures Draw(New([c])) == (Some(c), Deck([], []))
  {
  }

  /** The draw/discard walk-through: from draw pile [a, b, c] the draws give c, then b; after
      discarding b the draw gives a, and the next draw recycles the discard pile and gives b. */
  lemma DrawDiscardScenario(a: Card, b: Card, c: Card)
    ensures var (x1, d1) := Draw(New([a, b, c]));
      var (x2, d2) := Draw(d1);
      var d3 := Discard(d2, b);
      var (x3, d4) := Draw(d3);
      var (x4, d5) := Draw(d4);
      && x1 == Some(c) && x2 == Some(b) && x3 == Some(a) && x4 == Some(b)
      && d4 == Deck([], [b])
      && d5 == Deck([], [])
  {
    var (x1, d1) := Draw(New([a, b, c]));
    assert d1 == Deck([a, b], []);
    var (x2, d2) := Draw(d1);
    assert d2 == Deck([a], []);
    var d3 := Discard(d2, b);
    assert d3 == Deck([a], [b]);
    var (x3, d4) := Draw(d3);
    assert x3 == Some(a) && d4 == Deck([], [b]);
    assert Reverse([b][1..]) == [];
    assert Draw(d4) == (Some(b), Deck([], []));
  }

  /** Peeking shows the top card followed by what peeking shows once it is gone. */
  lemma PeekStep(d: Deck, count: nat)
    requires count > 0 && |d.drawPile| > 0
    ensures var n := |d.drawPile|;
      Peek(d, count) == [d.drawPile[n - 1]] + Peek(Deck(d.drawPile[..n - 1], d.discardPile), count - 1)
  {
    var n := |d.drawPile|;
    var p := Peek(d, count);
    var q := Peek(Deck(d.drawPile[..n - 1], d.discardPile), count - 1);
    forall i | 0 <= i < |p|
      ensures p[i] == ([d.drawPile[n - 1]] + q)[i]
    {
      if i > 0 {
        assert q[i - 1] == d.drawPile[..n - 1][n - 2 - (i - 1)];
      }
    }
  }

  /** Peeking at least as deep as the draw pile shows the whole pile, top first. */
  lemma PeekWholePile(d: Deck, count: nat)
    requires count >= |d.drawPile|
    ensures Peek(d, count) == Reverse(d.drawPile)
  {
    ReverseIndex(d.drawPile);
  }

  /** While the draw pile is deep enough, drawing never reshuffles: `DrawN` hands back exactly
      what `Peek` shows and leaves the bottom of the draw pile and the discard pile alone. */
  lemma {:induction false} DrawWithinPileIsPeek(d: Deck, count: nat)
    requires count <= |d.drawPile|
    ensures DrawN(d, count).0 == Peek(d, count)
    ensures DrawN(d, count).1 == Deck(d.drawPile[..|d.drawPile| - count], d.discardPile)
    decreases count
  {
    var n := |d.drawPile|;
    if count == 0 {
      assert d.drawPile[..n] == d.drawPile;
    } else {
      var top := d.drawPile[n - 1];
      var d1 := Deck(d.drawPile[..n - 1], d.discardPile);
      DrawWithinPileIsPeek(d1, count - 1);
      var rest := DrawN(d1, count - 1);
      assert DrawN(d, count) == ([top] + rest.0, rest.1) by {
        assert Draw(d) == (Some(top), d1);
      }
      assert [top] + rest.0 == Peek(d, count) by {
        PeekStep(d, count);
      }
      assert rest.1 == Deck(d.drawPile[..n - count], d.discardPile) by {
        assert d1.drawPile[..n - 1 - (count - 1)] == d.drawPile[..n - count];
      }
    }
  }

  /** A fresh deck deals its cards last-first: the draw order is the reverse of the input. */
  lemma NewDeckDrawOrder(cards: seq<Card>)
    ensures DrawN(New(cards), |cards|) == (Reverse(cards), Deck([], []))
  {
    DrawWithinPileIsPeek(New(cards), |cards|);
    PeekWholePile(New(cards), |cards|);
  }

  /** Drawing at least as many cards as the deck holds hands back every card and empties both
      piles; no card is lost by the reshuffle. */
  lemma DrawPastEnd(d: Deck, count: nat)
    requires count >= Size(d)
    ensures multiset(DrawN(d, count).0) == AllCards(d)
    ensures DrawN(d, count).1 == Deck([], [])
  {
    DrawNConserves(d, count);
    var (drawn, after) := DrawN(d, count);
    assert |multiset(drawn)| == |drawn| == Size(d) == |AllCards(d)|;
    assert |AllCards(after)| == 0;
    assert |after.drawPile| == 0 && |after.discardPile| == 0;
  }

  /** If a pile ends with the reverse of `m`, then `m` lists the pile's top cards top first,
      so it is any sequence that does the same. */
  lemma TopOfPile<T>(pile: seq<T>, left: seq<T>, m: seq<T>, top: seq<T>)
    requires pile == left + Reverse(m)
    requires |top| == |m|
    requires forall i :: 0 <= i < |top| ==> top[i] == pile[|pile| - 1 - i]
    ensures m == top
  {
    ReverseIndex(m);
    forall i | 0 <= i < |m|
      ensures m[i] == top[i]
    {
      assert pile[|pile| - 1 - i] == Reverse(m)[|m| - 1 - i];
    }
  }

  /** The cards milled are exactly the cards `Peek` shows, in the same order. */
  lemma MillReturnsPeek(d: Deck, count: nat)
    ensures MillN(d, count).0 == Peek(d, count)
  {
    var r := MillN(d, count);
    TopOfPile(d.drawPile, r.1.drawPile, r.0, Peek(d, count));
  }

  /** Milling never reshuffles: with an empty draw pile it does nothing, whatever the discard
      pile holds, whereas drawing recycles the discard pile. */
  lemma MillNeverReshuffles(d: Deck, count: nat)
    requires |d.drawPile| == 0
    ensures MillN(d, count) == ([], d)
    ensures count > 0 && |d.discardPile| > 0 ==> |DrawN(d, count).0| > 0
  {
  }

  /** Milling past the end of the draw pile moves the whole draw pile, top first, onto the
      discard pile and returns exactly those cards. */
  lemma MillPastEnd(d: Deck, count: nat)
    requires count >= |d.drawPile|
    ensures MillN(d, count).0 == Reverse(d.drawPile)
    ensures MillN(d, count).1 == Deck([], d.discardPile + Reverse(d.drawPile))
  {
    MillReturnsPeek(d, count);
    PeekWholePile(d, count);
  }

  /** A card moved to the bottom comes out after every card already in the draw pile. */
  lemma MoveToBottomComesLast(d: Deck, c: Card)
    ensures Peek(MoveToBottom(d, c), |d.drawPile| + 1) == Peek(d, |d.drawPile|) + [c]
  {
    var n := |d.drawPile|;
    var lhs := Peek(MoveToBottom(d, c), n + 1);
    var rhs := Peek(d, n) + [c];
    forall i | 0 <= i < n + 1
      ensures lhs[i] == rhs[i]
    {
      if i < n {
        assert MoveToBottom(d, c).drawPile[n - i] == d.drawPile[n - 1 - i];
      }
    }
  }

  /** Removing element `i` and inserting it again at index `i` gives the sequence back. */
  lemma RemoveInsert<T>(s: seq<T>, i: nat)
    requires i < |s|
    ensures var rest := s[..i] + s[i + 1..];
      i <= |rest| && rest[..i] + [s[i]] + rest[i..] == s
  {
    var rest := s[..i] + s[i + 1..];
    assert rest[..i] == s[..i];
    assert rest[i..] == s[i + 1..];
    assert s == s[..i] + [s[i]] + s[i + 1..];
  }

  /** A search that misses changes nothing; a search that hits removes one card and keeps
      everything else, so putting the found card back at its index restores the deck. */
  lemma SearchRestorable(d: Deck, p: Card -> bool)
    ensures Search(d, p).0.Some? ==> exists i ::
      && 0 <= i <= |Search(d, p).1.drawPile|
      && Search(d, p).1.drawPile[..i] + [Search(d, p).0.value] + Search(d, p).1.drawPile[i..] == d.drawPile
  {
    var r := Search(d, p);
    if r.0.Some? {
      var i := Position(d.drawPile, p).value;
      assert r == (Some(d.drawPile[i]), Deck(d.drawPile[..i] + d.drawPile[i + 1..], d.discardPile));
      RemoveInsert(d.drawPile, i);
      assert r.1.drawPile[..i] + [r.0.value] + r.1.drawPile[i..] == d.drawPile;
    }
  }
}
