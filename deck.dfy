/**
 * The riffle-shuffle deck engine: building the full deck, taking a chunk off
 * the top of a hand, one riffle pass, seven passes, and dealing from the top.
 *
 * Every draw of the random generator is an input here. A pass receives its
 * split draw and a finite sequence of round draws; a pass whose hands are not
 * empty when the round draws run out reports OutOfDraws (the generator would
 * simply have been asked again).
 */
module Decks {
  import opened Wrappers
  import opened Cards

  /** Number of possible split offsets: the split lands within 2 of the middle. */
  const SplitRange := 5
  /** Number of possible chunk sizes: 0, 1 or 2 cards per hand and round. */
  const ChunkRange := 3
  /** Number of riffle passes in a full shuffle. */
  const ShuffleCount := 7

  // ---------------------------------------------------------------------------
  // The full deck

  /** Where a card sits in the full deck: 13 places per suit before it, then its value's ordinal. */
  function CardIndex(c: Card): (k: nat)
    ensures k < 52 && k % 13 == ValueOrdinal(c.value) && k / 13 == SuitOrdinal(c.suit)
  {
    13 * SuitOrdinal(c.suit) + ValueOrdinal(c.value)
  }

  /**
   * The full 52-card deck in suit-major, value-minor order: each card sits at
   * its CardIndex, and the card at each position has that position as index.
   */
  function FullDeck(): (deck: seq<Card>)
    ensures |deck| == 52
    ensures forall c :: deck[CardIndex(c)] == c
    ensures forall i :: 0 <= i < 52 ==> CardIndex(deck[i]) == i
  {
    var vs, ss := CardValues(), CardSuits();
    var deck := seq(52, i requires 0 <= i < 52 => Card(vs[i % 13], ss[i / 13]));
    assert forall c: Card :: vs[ValueOrdinal(c.value)] == c.value && ss[SuitOrdinal(c.suit)] == c.suit;
    deck
  }

  /**
   * No two positions of `s` hold the same element. This positional form is
   * what the full deck's construction shows directly; NoDuplicates below is
   * the counting form, which a shuffle keeps because it keeps the multiset.
   * DistinctCount turns the first into the second.
   */
  predicate Distinct<T(==)>(s: seq<T>)
  {
    forall i, j :: 0 <= i < j < |s| ==> s[i] != s[j]
  }

  /** Every card occurs at most once in `s`. */
  ghost predicate NoDuplicates(s: seq<Card>)
  {
    forall c :: multiset(s)[c] <= 1
  }

  /** In a sequence without repetitions, an element occurs once if present and never otherwise. */
  lemma {:induction false} DistinctCount<T>(s: seq<T>, x: T)
    requires Distinct(s)
    ensures multiset(s)[x] == if x in s then 1 else 0
  {
    if s != [] {
      assert s == [s[0]] + s[1..];
      assert Distinct(s[1..]);
      DistinctCount(s[1..], x);
      assert s[0] in s[1..] ==> false;
    }
  }

  /** Each of the 52 (value, suit) pairs occurs exactly once in the full deck. */
  lemma FullDeckHasEachCardOnce()
    ensures |FullDeck()| == 52
    ensures forall c: Card :: multiset(FullDeck())[c] == 1
  {
    var d := FullDeck();
    assert Distinct(d) by {
      forall i, j | 0 <= i < j < 52 ensures d[i] != d[j] {
        assert CardIndex(d[i]) == i && CardIndex(d[j]) == j;
      }
    }
    forall c: Card ensures multiset(d)[c] == 1 {
      assert d[CardIndex(c)] == c;
      DistinctCount(d, c);
    }
  }

  /** Builds the full deck with an outer loop over suits and an inner loop over values. */
  method CreateDeck() returns (deck: seq<Card>)
    ensures |deck| == |CardSuits()| * |CardValues()| == 52
    ensures forall i :: 0 <= i < |deck| ==> deck[i] == Card(CardValues()[i % 13], CardSuits()[i / 13])
    ensures NoDuplicates(deck) && forall c :: c in deck
    ensures deck == FullDeck()
  {
    var suits, values := CardSuits(), CardValues();
    deck := [];
    for s := 0 to |suits|
      invariant |deck| == 13 * s
      invariant forall i :: 0 <= i < |deck| ==> deck[i] == Card(values[i % 13], suits[i / 13])
    {
      for v := 0 to |values|
        invariant |deck| == 13 * s + v
        invariant forall i :: 0 <= i < |deck| ==> deck[i] == Card(values[i % 13], suits[i / 13])
      {
        deck := deck + [Card(values[v], suits[s])];
      }
    }
    assert deck == FullDeck();
    FullDeckHasEachCardOnce();
    forall c ensures c in deck {
      assert multiset(deck)[c] == 1;
    }
  }

  /**
   * What a deck holds once populated: a present list stays as it is, and a
   * missing one becomes the full deck of 52 cards with none twice.
   */
  function Populated(cards: Option<seq<Card>>): (deck: seq<Card>)
    ensures cards.Some? ==> deck == cards.value
    ensures cards.None? ==> deck == FullDeck() && |deck| == 52 && NoDuplicates(deck)
  {
    if cards.None? then
      FullDeckHasEachCardOnce();
      FullDeck()
    else cards.value
  }

  /** The cards of a deck without duplicates are 52 at most. */
  lemma AtMostFullDeck(s: seq<Card>)
    requires NoDuplicates(s)
    ensures |s| <= 52
  {
    FullDeckHasEachCardOnce();
    assert multiset(s) <= multiset(FullDeck());
    SubMultisetSize(multiset(s), multiset(FullDeck()));
  }

  /** A sub-multiset is no larger than the multiset that contains it. */
  lemma {:induction false} SubMultisetSize<T>(a: multiset<T>, b: multiset<T>)
    requires a <= b
    ensures |a| <= |b|
    decreases |a|
  {
    if a != multiset{} {
      var x :| x in a;
      var a', b' := a - multiset{x}, b - multiset{x};
      assert a == a' + multiset{x} && b == b' + multiset{x};
      SubMultisetSize(a', b');
    }
  }

  // ---------------------------------------------------------------------------
  // Chunks

  /** The random draws of one interleaving round. */
  datatype Draw = Draw(left: int, right: int, coin: int)

  /** Each chunk size is a draw in [0, ChunkRange), the coin a draw in [0, 2). */
  predicate DrawInRange(d: Draw)
  {
    0 <= d.left < ChunkRange && 0 <= d.right < ChunkRange && 0 <= d.coin < 2
  }

  predicate DrawsInRange(draws: seq<Draw>)
  {
    forall i :: 0 <= i < |draws| ==> DrawInRange(draws[i])
  }

  /** `s` read back to front: same length, the k-th element from the end at position k. */
  function Reversed<T>(s: seq<T>): (r: seq<T>)
    ensures |r| == |s|
    ensures forall k :: 0 <= k < |s| ==> r[k] == s[|s| - 1 - k]
  {
    if s == [] then [] else [s[|s| - 1]] + Reversed(s[..|s| - 1])
  }

  /** Reversal keeps the elements, each as often as before. */
  lemma {:induction false} ReversedKeepsElements<T>(s: seq<T>)
    ensures multiset(Reversed(s)) == multiset(s)
  {
    if s != [] {
      var init := s[..|s| - 1];
      ReversedKeepsElements(init);
      assert s == init + [s[|s| - 1]];
    }
  }

  /** How many cards a chunk of size `n` takes from a hand of `len` cards. */
  function Taken(n: int, len: nat): (k: nat)
    ensures k <= len
  {
    if n <= 0 then 0 else if n < len then n else len
  }

  /**
   * The chunk of size `n` moved off the top of `hand`: its first Taken(n, |hand|)
   * cards, last one first; with what stays in the hand it loses nothing.
   */
  function Chunk(n: int, hand: seq<Card>): (chunk: seq<Card>)
    ensures |chunk| == Taken(n, |hand|)
    ensures forall i :: 0 <= i < |chunk| ==> chunk[i] == hand[|chunk| - 1 - i]
    ensures multiset(chunk) + multiset(hand[|chunk|..]) == multiset(hand)
  {
    var k := Taken(n, |hand|);
    ReversedKeepsElements(hand[..k]);
    assert hand == hand[..k] + hand[k..];
    Reversed(hand[..k])
  }

  /**
   * Pops up to `chunkSize` cards off the front of `hand`, pushing each onto
   * the front of a fresh stack. `rest` is what is left of the hand; a missing
   * hand stays missing.
   */
  method AddChunk(chunkSize: int, hand: Option<seq<Card>>) returns (stack: seq<Card>, rest: Option<seq<Card>>)
    ensures hand.None? ==> stack == [] && rest == None
    ensures hand.Some? ==>
      var k := Taken(chunkSize, |hand.value|);
      && rest == Some(hand.value[k..])
      && |stack| == k
      && (forall i :: 0 <= i < k ==> stack[i] == hand.value[k - 1 - i])
      && multiset(stack) + multiset(rest.value) == multiset(hand.value)
    ensures hand.Some? ==> stack == Chunk(chunkSize, hand.value)
  {
    stack, rest := [], hand;
    if hand.None? {
      return;
    }
    var h, n := hand.value, chunkSize;
    ghost var popped := 0;
    while h != [] && n > 0
      invariant 0 <= popped <= |hand.value|
      invariant h == hand.value[popped..]
      invariant stack == Reversed(hand.value[..popped])
      invariant n == chunkSize - popped
      invariant popped <= Taken(chunkSize, |hand.value|)
    {
      assert hand.value[..popped + 1][..popped] == hand.value[..popped];
      stack := [h[0]] + stack;
      h := h[1..];
      n := n - 1;
      popped := popped + 1;
    }
    rest := Some(h);
    ReversedKeepsElements(hand.value[..popped]);
    assert hand.value == hand.value[..popped] + h;
  }

  // ---------------------------------------------------------------------------
  // One riffle pass

  /**
   * Where a deck of `deckSize` cards is cut: SplitRange / 2 before the middle
   * plus the draw `r`, moved into [0, deckSize - 1] when it falls outside.
   */
  function SplitPoint(deckSize: nat, r: int): (s: nat)
    requires deckSize > 0
    ensures s < deckSize
    ensures var raw := deckSize / 2 - SplitRange / 2 + r;
      (0 <= raw < deckSize ==> s == raw) && (raw < 0 ==> s == 0) && (raw >= deckSize ==> s == deckSize - 1)
  {
    var raw := deckSize / 2 - SplitRange / 2 + r;
    if raw < 0 then 0 else if raw >= deckSize then deckSize - 1 else raw
  }

  /** With a split draw in range, the cut is at most two cards away from the middle. */
  lemma SplitNearMiddle(deckSize: nat, r: int)
    requires deckSize > 0 && 0 <= r < SplitRange
    ensures deckSize / 2 - 2 <= SplitPoint(deckSize, r) <= deckSize / 2 + 2
  {
  }

  /** Cutting at the split point gives two hands that together are the deck, the right one never empty. */
  lemma SplitPartitions(cards: seq<Card>, r: int)
    requires |cards| > 0
    ensures var s := SplitPoint(|cards|, r);
      cards[..s] + cards[s..] == cards && |cards[s..]| > 0 && |cards[..s]| == s
  {
  }

  /** The three piles of an interleaving in progress. */
  datatype Hands = Hands(shuffled: seq<Card>, left: seq<Card>, right: seq<Card>)

  /** All the cards the three piles hold. */
  function Contents(h: Hands): multiset<Card>
  {
    multiset(h.shuffled) + multiset(h.left) + multiset(h.right)
  }

  /**
   * One round of the interleaving: when both chunk sizes are 0 nothing moves;
   * otherwise the coin draw 0 appends the left chunk first, and any other coin
   * the right chunk first.
   */
  function Round(h: Hands, d: Draw): (r: Hands)
    ensures Contents(r) == Contents(h)
    ensures r.left == h.left[Taken(d.left, |h.left|)..] && r.right == h.right[Taken(d.right, |h.right|)..]
    ensures |r.shuffled| == |h.shuffled| + Taken(d.left, |h.left|) + Taken(d.right, |h.right|)
    ensures h.shuffled <= r.shuffled
  {
    if d.left == 0 && d.right == 0 then h
    else
      var fromLeft, fromRight := Chunk(d.left, h.left), Chunk(d.right, h.right);
      var left, right := h.left[Taken(d.left, |h.left|)..], h.right[Taken(d.right, |h.right|)..];
      var shuffled := if d.coin == 0 then h.shuffled + fromLeft + fromRight else h.shuffled + fromRight + fromLeft;
      ChunksKeepCards(h, fromLeft, fromRight, Taken(d.left, |h.left|), Taken(d.right, |h.right|), shuffled);
      Hands(shuffled, left, right)
  }

  /**
   * Moving a chunk of `ka` cards off the left hand and one of `kb` cards off
   * the right hand to the end of the output, in either order, loses no card
   * and keeps the old output in front.
   */
  lemma ChunksKeepCards(h: Hands, fromLeft: seq<Card>, fromRight: seq<Card>, ka: nat, kb: nat, shuffled: seq<Card>)
    requires ka <= |h.left| && |fromLeft| == ka && multiset(fromLeft) + multiset(h.left[ka..]) == multiset(h.left)
    requires kb <= |h.right| && |fromRight| == kb && multiset(fromRight) + multiset(h.right[kb..]) == multiset(h.right)
    requires shuffled == h.shuffled + fromLeft + fromRight || shuffled == h.shuffled + fromRight + fromLeft
    ensures Contents(Hands(shuffled, h.left[ka..], h.right[kb..])) == Contents(h)
    ensures |shuffled| == |h.shuffled| + ka + kb && h.shuffled <= shuffled
  {
    if shuffled == h.shuffled + fromLeft + fromRight {
      assert multiset(shuffled) == multiset(h.shuffled) + multiset(fromLeft) + multiset(fromRight);
    } else {
      assert multiset(shuffled) == multiset(h.shuffled) + multiset(fromRight) + multiset(fromLeft);
    }
  }

  /** A pass either ends with the shuffled cards or runs out of round draws first. */
  datatype Pass = Shuffled(cards: seq<Card>) | OutOfDraws

  /** Plays rounds from `draws` until both hands are empty. */
  function Interleave(h: Hands, draws: seq<Draw>): (p: Pass)
    ensures p.Shuffled? ==> multiset(p.cards) == Contents(h)
    ensures p.Shuffled? ==> h.shuffled <= p.cards
    decreases |draws|
  {
    if h.left == [] && h.right == [] then Shuffled(h.shuffled)
    else if draws == [] then OutOfDraws
    else Interleave(Round(h, draws[0]), draws[1..])
  }

  /** One riffle pass over `cards` (the full deck when missing) with the given draws. */
  function RiffleOnce(cards: Option<seq<Card>>, split: int, rounds: seq<Draw>): (p: Pass)
    ensures p.Shuffled? ==> multiset(p.cards) == multiset(Populated(cards)) && |p.cards| == |Populated(cards)|
    ensures Populated(cards) == [] ==> p == Shuffled([])
  {
    var input := Populated(cards);
    if |input| == 0 then Shuffled([])
    else
      var s := SplitPoint(|input|, split);
      assert input == input[..s] + input[s..];
      var p := Interleave(Hands([], input[..s], input[s..]), rounds);
      assert p.Shuffled? ==> |multiset(p.cards)| == |p.cards| && |multiset(input)| == |input|;
      p
  }

  /** The draws with both chunk sizes 0 left out. */
  function WithoutIdleRounds(draws: seq<Draw>): seq<Draw>
  {
    if draws == [] then []
    else if draws[0].left == 0 && draws[0].right == 0 then WithoutIdleRounds(draws[1..])
    else [draws[0]] + WithoutIdleRounds(draws[1..])
  }

  /** Rounds whose chunk sizes are both 0 change nothing: dropping them from the draws gives the same pass. */
  lemma {:induction false} IdleRoundsChangeNothing(h: Hands, draws: seq<Draw>)
    ensures Interleave(h, draws) == Interleave(h, WithoutIdleRounds(draws))
    decreases |draws|
  {
    if draws != [] {
      IdleRoundsChangeNothing(Round(h, draws[0]), draws[1..]);
      if draws[0].left == 0 && draws[0].right == 0 {
        IdleRoundsChangeNothing(h, draws[1..]);
      }
    }
  }

  /**
   * The coin only chooses which chunk is appended first: with either coin the
   * same cards leave each hand and the same multiset of cards is appended.
   */
  lemma CoinOrdersChunksOnly(h: Hands, d: Draw)
    requires !(d.left == 0 && d.right == 0)
    ensures var a, b := Round(h, d.(coin := 0)), Round(h, d.(coin := 1));
      && a.left == b.left && a.right == b.right
      && multiset(a.shuffled) == multiset(b.shuffled)
      && a.shuffled == h.shuffled + Chunk(d.left, h.left) + Chunk(d.right, h.right)
      && b.shuffled == h.shuffled + Chunk(d.right, h.right) + Chunk(d.left, h.left)
  {
  }

  /**
   * When every round takes at least one card from each hand, as many rounds as
   * there are cards are enough to finish the pass.
   */
  lemma {:induction false} BusyRoundsFinish(h: Hands, draws: seq<Draw>)
    requires forall i :: 0 <= i < |draws| ==> draws[i].left >= 1 && draws[i].right >= 1
    requires |draws| >= |h.left| + |h.right|
    ensures Interleave(h, draws).Shuffled?
    decreases |draws|
  {
    if h.left != [] || h.right != [] {
      var d := draws[0];
      var next := Round(h, d);
      assert |next.left| + |next.right| < |h.left| + |h.right|;
      BusyRoundsFinish(next, draws[1..]);
    }
  }

  /**
   * The interleaving loop of a pass: while either hand holds cards, draw two
   * chunk sizes, retry when both are 0, otherwise draw the coin and move the
   * two chunks, left one first when the coin is 0.
   */
  method InterleaveHands(leftHand: seq<Card>, rightHand: seq<Card>, rounds: seq<Draw>) returns (p: Pass)
    requires DrawsInRange(rounds)
    ensures p == Interleave(Hands([], leftHand, rightHand), rounds)
    ensures p.Shuffled? ==> multiset(p.cards) == multiset(leftHand) + multiset(rightHand)
  {
    var shuffled: seq<Card> := [];
    var left, right := leftHand, rightHand;
    var i := 0;
    while left != [] || right != []
      invariant 0 <= i <= |rounds|
      invariant Interleave(Hands(shuffled, left, right), rounds[i..]) == Interleave(Hands([], leftHand, rightHand), rounds)
      decreases |rounds| - i
    {
      if i == |rounds| {
        assert rounds[i..] == [];
        return OutOfDraws;
      }
      var draw := rounds[i];
      ghost var before := Hands(shuffled, left, right);
      assert Interleave(before, rounds[i..]) == Interleave(Round(before, draw), rounds[i + 1..]);
      i := i + 1;
      var chunkLeftSize, chunkRightSize := draw.left, draw.right;
      if chunkLeftSize == 0 && chunkRightSize == 0 {
        continue;
      }
      var leftFirst := draw.coin == 0;
      var chunk, rest;
      if leftFirst {
        chunk, rest := AddChunk(chunkLeftSize, Some(left));
        shuffled, left := shuffled + chunk, rest.value;
        chunk, rest := AddChunk(chunkRightSize, Some(right));
        shuffled, right := shuffled + chunk, rest.value;
      } else {
        chunk, rest := AddChunk(chunkRightSize, Some(right));
        shuffled, right := shuffled + chunk, rest.value;
        chunk, rest := AddChunk(chunkLeftSize, Some(left));
        shuffled, left := shuffled + chunk, rest.value;
      }
      assert Hands(shuffled, left, right) == Round(before, draw);
    }
    return Shuffled(shuffled);
  }

  /**
   * One riffle pass: a missing list is first replaced by the full deck; an
   * empty one gives an empty result; otherwise the cards are cut near the
   * middle and the two hands interleaved.
   */
  method ShuffleOnce(cards: Option<seq<Card>>, split: int, rounds: seq<Draw>) returns (p: Pass)
    requires 0 <= split < SplitRange && DrawsInRange(rounds)
    ensures p == RiffleOnce(cards, split, rounds)
    ensures p.Shuffled? ==> multiset(p.cards) == multiset(Populated(cards)) && |p.cards| == |Populated(cards)|
    ensures Populated(cards) == [] ==> p == Shuffled([])
  {
    var input: seq<Card>;
    if cards.None? {
      input := CreateDeck();
    } else {
      input := cards.value;
    }
    var deckSize := |input|;
    if deckSize == 0 {
      return Shuffled([]);
    }
    var splitLocation := deckSize / 2 - SplitRange / 2 + split;
    if splitLocation < 0 {
      splitLocation := 0;
    } else if splitLocation >= deckSize {
      splitLocation := deckSize - 1;
    }
    var leftHand, rightHand := input[..splitLocation], input[splitLocation..];
    assert input == leftHand + rightHand;
    p := InterleaveHands(leftHand, rightHand, rounds);
  }

  // ---------------------------------------------------------------------------
  // Seven passes

  /** The draws of one pass: the split draw and the round draws. */
  datatype PassDraws = PassDraws(split: int, rounds: seq<Draw>)

  /** The split draw is in [0, SplitRange) and every round draw is in range. */
  predicate PassInRange(p: PassDraws)
  {
    0 <= p.split < SplitRange && DrawsInRange(p.rounds)
  }

  /**
   * Runs the passes one after another on `cards`. The result is the list the
   * deck holds afterwards and whether every pass finished; a pass that runs
   * out of draws leaves the list as the previous pass left it.
   */
  function RepeatRiffle(cards: Option<seq<Card>>, passes: seq<PassDraws>): (r: (Option<seq<Card>>, bool))
    ensures r.0.Some? ==> multiset(r.0.value) == multiset(Populated(cards)) && |r.0.value| == |Populated(cards)|
    ensures r.1 && |passes| > 0 ==> r.0.Some?
    ensures r.0.None? ==> cards.None?
    decreases |passes|
  {
    if passes == [] then (cards, true)
    else match RiffleOnce(cards, passes[0].split, passes[0].rounds)
      case OutOfDraws => (cards, false)
      case Shuffled(s) => RepeatRiffle(Some(s), passes[1..])
  }

  /**
   * The first of several passes: when it runs out of draws the run stops
   * there, and otherwise the run goes on from its result, which keeps the
   * cards of the populated deck and has no duplicate when the deck had none.
   */
  lemma PassStep(cards: Option<seq<Card>>, passes: seq<PassDraws>, p: Pass)
    requires passes != [] && p == RiffleOnce(cards, passes[0].split, passes[0].rounds)
    requires cards.Some? ==> NoDuplicates(cards.value)
    ensures p.OutOfDraws? ==> RepeatRiffle(cards, passes) == (cards, false)
    ensures p.Shuffled? ==> RepeatRiffle(cards, passes) == RepeatRiffle(Some(p.cards), passes[1..])
    ensures p.Shuffled? ==> NoDuplicates(p.cards) && multiset(p.cards) == multiset(Populated(cards))
  {
  }

  // ---------------------------------------------------------------------------
  // The deck

  /**
   * A deck of cards. `cards` is None until first use, when it becomes the full
   * deck; dealing pops its front card and shuffling replaces it.
   */
  class Deck {
    var cards: Option<seq<Card>>

    /** The deck never holds the same card twice. */
    ghost predicate Valid()
      reads this
    {
      cards.Some? ==> NoDuplicates(cards.value)
    }

    constructor ()
      ensures Valid() && cards == None
    {
      cards := None;
    }

    /**
     * Returns the front card and removes it, or None when the deck is empty;
     * an unpopulated deck is first populated with the full deck.
     */
    method DealOneCard() returns (card: Option<Card>)
      requires Valid()
      modifies this
      ensures Valid()
      ensures var before := Populated(old(cards));
        if before == [] then card == None && cards == Some([])
        else card == Some(before[0]) && cards == Some(before[1..])
    {
      if cards.None? {
        var deck := CreateDeck();
        cards := Some(deck);
      }
      var c := cards.value;
      if c == [] {
        return None;
      }
      card := Some(c[0]);
      cards := Some(c[1..]);
      assert c == [c[0]] + c[1..];
      assert forall x :: multiset(c[1..])[x] <= multiset(c)[x];
    }

    /**
     * Seven riffle passes, each replacing the list with the pass's result; a
     * missing list is populated by the first pass. `complete` is false when a
     * pass ran out of draws, and the list is then as the previous pass left it.
     */
    method Shuffle(passes: seq<PassDraws>) returns (complete: bool)
      requires Valid()
      requires |passes| == ShuffleCount
      requires forall i :: 0 <= i < |passes| ==> PassInRange(passes[i])
      modifies this
      ensures Valid()
      ensures (cards, complete) == RepeatRiffle(old(cards), passes)
      ensures cards.Some? ==> multiset(cards.value) == multiset(Populated(old(cards)))
      ensures complete ==> cards.Some?
    {
      complete := true;
      ghost var start := old(cards);
      for i := 0 to ShuffleCount
        invariant Valid()
        invariant RepeatRiffle(cards, passes[i..]) == RepeatRiffle(start, passes)
        invariant cards.Some? ==> multiset(cards.value) == multiset(Populated(start))
        invariant cards.None? ==> start.None?
        invariant i > 0 ==> cards.Some?
      {
        var p := ShuffleOnce(cards, passes[i].split, passes[i].rounds);
        assert passes[i..][0] == passes[i] && passes[i..][1..] == passes[i + 1..];
        PassStep(cards, passes[i..], p);
        if p.OutOfDraws? {
          complete := false;
          return;
        }
        cards := Some(p.cards);
      }
      assert passes[ShuffleCount..] == [];
    }
  }

  /**
   * Deals until the deck reports empty and returns the cards in the order they
   * were dealt: exactly the deck's former contents, front first.
   */
  method DealUntilEmpty(deck: Deck) returns (dealt: seq<Card>)
    requires deck.Valid()
    modifies deck
    ensures deck.Valid() && deck.cards == Some([])
    ensures dealt == Populated(old(deck.cards))
  {
    ghost var all := Populated(deck.cards);
    dealt := [];
    var card := deck.DealOneCard();
    while card.Some?
      invariant deck.Valid() && deck.cards.Some?
      invariant card.Some? ==> dealt + [card.value] + deck.cards.value == all
      invariant card.None? ==> dealt == all && deck.cards.value == []
      decreases |deck.cards.value|, card.Some?
    {
      dealt := dealt + [card.value];
      card := deck.DealOneCard();
    }
  }

  /**
   * A fresh deck, shuffled, then dealt until empty: the first 52 deals give
   * each of the 52 cards exactly once, and a further deal gives nothing.
   */
  method ShuffleThenDealAll(passes: seq<PassDraws>) returns (dealt: seq<Card>, extra: Option<Card>)
    requires |passes| == ShuffleCount
    requires forall i :: 0 <= i < |passes| ==> PassInRange(passes[i])
    ensures |dealt| == 52
    ensures forall c: Card :: multiset(dealt)[c] == 1
    ensures extra == None
  {
    var deck := new Deck();
    var _ := deck.Shuffle(passes);
    dealt := DealUntilEmpty(deck);
    extra := deck.DealOneCard();
    FullDeckHasEachCardOnce();
    assert |multiset(dealt)| == |dealt|;
  }
}
