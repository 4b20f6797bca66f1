/**
 * The deck service of the card game: building the 52-card deck, shuffling it
 * in place and drawing from its front.
 */
module Cards {
  import opened Wrappers

  /** A playing card; `value` orders ranks for the higher/lower comparison. */
  datatype Card = Card(suit: string, rank: string, value: int)

  const Suits: seq<string> := ["HEARTS", "DIAMONDS", "CLUBS", "SPADES"]
  const Ranks: seq<string> := ["2", "3", "4", "5", "6", "7", "8", "9", "10", "J", "Q", "K", "A"]

  /** The mutable list of cards (an ArrayList) that the deck operations update in place. */
  class CardList {
    var cards: seq<Card>

    constructor ()
      ensures cards == []
    {
      cards := [];
    }
  }

  /**
   * The deck in the order it is built: suit by suit, and within a suit rank by
   * rank, the rank at index i carrying the value i + 2.
   */
  function StandardDeck(): (d: seq<Card>)
    ensures |d| == |Suits| * |Ranks| == 52
  {
    seq(52, i requires 0 <= i < 52 => Card(Suits[i / 13], Ranks[i % 13], i % 13 + 2))
  }

  /** The card of suit s and rank i sits at position 13 * s + i. */
  lemma DeckAt(s: nat, i: nat)
    requires s < |Suits| && i < |Ranks|
    ensures StandardDeck()[13 * s + i] == Card(Suits[s], Ranks[i], i + 2)
  {
    assert (13 * s + i) / 13 == s && (13 * s + i) % 13 == i;
  }

  /** Builds a fresh list holding the standard deck, suit-major. */
  method CreateDeck() returns (deck: CardList)
    ensures fresh(deck)
    ensures deck.cards == StandardDeck()
  {
    deck := new CardList();
    for s := 0 to |Suits|
      invariant deck.cards == StandardDeck()[..13 * s]
    {
      for i := 0 to |Ranks|
        invariant deck.cards == StandardDeck()[..13 * s + i]
      {
        DeckAt(s, i);
        assert StandardDeck()[..13 * s + i + 1] == StandardDeck()[..13 * s + i] + [StandardDeck()[13 * s + i]];
        deck.cards := deck.cards + [Card(Suits[s], Ranks[i], i + 2)];
      }
    }
  }

  /**
   * Shuffles the list in place and returns the same list. The random source is
   * the oracle `randomIndex`; as in the backward Fisher-Yates loop of the JDK,
   * step i swaps position i - 1 with a position below i.
   */
  method ShuffleDeck(deck: CardList, randomIndex: nat -> nat) returns (r: CardList)
    modifies deck
    ensures r == deck
    ensures |deck.cards| == |old(deck.cards)|
    ensures multiset(deck.cards) == multiset(old(deck.cards))
  {
    var i := |deck.cards|;
    while i > 1
      invariant i <= |deck.cards| == |old(deck.cards)|
      invariant multiset(deck.cards) == multiset(old(deck.cards))
    {
      var j := randomIndex(i) % i;
      var a, b := deck.cards[i - 1], deck.cards[j];
      deck.cards := deck.cards[i - 1 := b][j := a];
      i := i - 1;
    }
    r := deck;
  }

  /**
   * Removes and returns the first card; a missing (null) or empty list yields
   * no card and is left as it was.
   */
  method DrawCard(deck: CardList?) returns (c: Option<Card>)
    modifies deck
    ensures deck == null || old(deck.cards) == [] ==> c == None
    ensures deck != null && old(deck.cards) == [] ==> deck.cards == []
    ensures deck != null && old(deck.cards) != [] ==>
      c == Some(old(deck.cards)[0]) && deck.cards == old(deck.cards)[1..]
  {
    if deck == null || deck.cards == [] {
      return None;
    }
    c := Some(deck.cards[0]);
    deck.cards := deck.cards[1..];
  }

  /** The rank at index i carries value i + 2: values run from 2 to 14 and only the ace is 14. */
  lemma RankValues(i: nat)
    requires i < 52
    ensures StandardDeck()[i].rank == Ranks[i % 13]
    ensures StandardDeck()[i].value == i % 13 + 2
    ensures 2 <= StandardDeck()[i].value <= 14
    ensures StandardDeck()[i].value == 14 <==> StandardDeck()[i].rank == "A"
  {
    assert forall k :: 0 <= k < 12 ==> Ranks[k] != "A";
  }

  /** The suit names are pairwise distinct, and so are the rank names. */
  lemma NamesDistinct()
    ensures forall a, b :: 0 <= a < b < |Suits| ==> Suits[a] != Suits[b]
    ensures forall a, b :: 0 <= a < b < |Ranks| ==> Ranks[a] != Ranks[b]
  {
    assert forall a :: 0 <= a < |Ranks| ==> |Ranks[a]| == (if a == 8 then 2 else 1);
    assert forall a :: 0 <= a < |Ranks| && a != 8 ==> Ranks[a][0] == "23456789_JQKA"[a];
  }

  /** The positions of the deck holding the card with the given suit and rank. */
  function PairPositions(d: seq<Card>, suit: string, rank: string): set<nat>
  {
    set i: nat | i < |d| && d[i].suit == suit && d[i].rank == rank
  }

  /** The positions of the deck holding a card of the given value. */
  function ValuePositions(d: seq<Card>, v: int): set<nat>
  {
    set i: nat | i < |d| && d[i].value == v
  }

  /** Every (suit, rank) pair occurs in the standard deck exactly once. */
  lemma EachPairOnce(s: nat, r: nat)
    requires s < |Suits| && r < |Ranks|
    ensures PairPositions(StandardDeck(), Suits[s], Ranks[r]) == {13 * s + r}
    ensures |PairPositions(StandardDeck(), Suits[s], Ranks[r])| == 1
  {
    NamesDistinct();
    var d := StandardDeck();
    forall i: nat | i < 52
      ensures i in PairPositions(d, Suits[s], Ranks[r]) <==> i == 13 * s + r
    {
      assert i == 13 * (i / 13) + i % 13;
      assert (13 * s + r) / 13 == s && (13 * s + r) % 13 == r;
    }
  }

  /** Four distinct numbers make a set of four. */
  lemma FourDistinct(a: nat, b: nat, c: nat, e: nat)
    requires a < b < c < e
    ensures |{a, b, c, e}| == 4
  {
    assert {a, b, c, e} == {a, b, c} + {e};
    assert {a, b, c} == {a, b} + {c};
  }

  /** The positions of a value are one per suit, 13 apart. */
  lemma ValuePositionsOnePerSuit(v: int)
    requires 2 <= v <= 14
    ensures ValuePositions(StandardDeck(), v) == {v - 2, v + 11, v + 24, v + 37}
  {
    var d := StandardDeck();
    forall i: nat | i < 52
      ensures i in ValuePositions(d, v) <==> i in {v - 2, v + 11, v + 24, v + 37}
    {
      assert i == 13 * (i / 13) + i % 13;
    }
    assert forall i: nat :: i in ValuePositions(d, v) ==> i < 52;
  }

  /** Every value 2..14 occurs in the standard deck exactly four times, once per suit. */
  lemma EachValueFourTimes(v: int)
    requires 2 <= v <= 14
    ensures ValuePositions(StandardDeck(), v) == {v - 2, v + 11, v + 24, v + 37}
    ensures |ValuePositions(StandardDeck(), v)| == 4
  {
    ValuePositionsOnePerSuit(v);
    FourDistinct(v - 2, v + 11, v + 24, v + 37);
  }
}
