# Deck of cards with a riffle shuffle, in Dafny

This project models a 52-card deck (`tld.deckofcards`): the `Card` value type
and the `Deck` engine that builds the full deck, shuffles it with seven
simulated riffle passes and deals cards off the top until it is empty.

- `cards.dfy`, module `Cards`: the `CardValue` and `CardSuit` enumerations as
  datatypes in declaration order, `Card` as a (value, suit) pair, the enumerator
  names, and `CardToString` rendering `"<Value> of <Suit>"`. `ParseCard` reads a
  rendering back; it is the partner that shows the rendering loses nothing.
- `deck.dfy`, module `Decks`: `CreateDeck` (two nested loops), `AddChunk` (pop
  from the hand, push onto a fresh stack), the interleaving loop
  (`InterleaveHands`, which `ShuffleOnce` calls after the cut), and a `Deck`
  class whose `cards` field is `None` until first use (Java's `null`), with
  `DealOneCard` and `Shuffle`. The pure functions `FullDeck`, `Round`,
  `Interleave`, `RiffleOnce` and `RepeatRiffle` are the specifications the
  methods are proved against; their own contracts and the lemmas beside them
  state the shuffle's properties.
- `wrappers.dfy`: the `Option` type standing for a nullable reference.

Randomness is an input. Each call of `random.nextInt(n)` becomes a value
supplied by the caller, with only its range required: the split draw in
`[0, 5)`, each chunk size in `[0, 3)`, the coin in `[0, 2)`. A pass receives its
split draw and a finite sequence of round draws (`Draw(left, right, coin)`).
The Java loop asks the generator again whenever it needs a draw, so it has no
bound on its rounds; here a pass whose hands are still not empty when its
round draws are used up returns `OutOfDraws`. `BusyRoundsFinish` shows when
the supplied draws are enough. Because every operation is a function of its
draws, two runs given the same draws produce the same deck.

Dealing returns `None` for the Java `null` "no card" signal. A deck whose
`cards` are `None` is populated with the full deck by the first deal or the
first pass, exactly as `dealOneCard` and `shuffleOnce(null)` do.

The code moves each chunk reversed: `AddChunk` pops a card off the hand and
pushes it onto the front of the chunk, so a two-card chunk lands in the output
in the opposite order (Deck.java line 83). The model does the same: `Chunk` is
the reversed prefix of the hand.

## Model

| member | source | states |
|---|---|---|
| `Cards.CardValues` | src/tld/deckofcards/Card.java:6-10 | the value list has exactly 13 entries; entry i is the value of ordinal i, and every value sits at its own ordinal, so the list runs Ace through King in declaration order |
| `Cards.CardSuits` | src/tld/deckofcards/Card.java:12-14 | the suit list has exactly 4 entries, Clubs, Diamonds, Hearts, Spades, each at its own ordinal |
| `Cards.ValueName` | src/tld/deckofcards/Card.java:6-10 | each value's name is a non-empty word with no space, and it reads back as that value, so different values have different names |
| `Cards.SuitName` | src/tld/deckofcards/Card.java:12-14 | each suit's name is a non-empty word with no space, and it reads back as that suit |
| `Cards.CardIsItsPair` | src/tld/deckofcards/Card.java:17-21 | in the model, a card holds exactly the value and suit it was built from and nothing else: equal pairs give equal cards |
| `Cards.FirstSpaceAfterWord` | src/tld/deckofcards/Card.java:25 | in a rendering, the first space comes right after the value's name |
| `Cards.CardToString` | src/tld/deckofcards/Card.java:24-26 | the rendering is the value's name, then " of ", then the suit's name: reading it back at the first space gives the same card |
| `Cards.CardToStringInjective` | src/tld/deckofcards/Card.java:24-26 | two cards render to the same text if and only if they are the same (value, suit) pair |
| `Decks.FullDeck` | src/tld/deckofcards/Deck.java:61-67 | the full deck holds 52 cards; every (value, suit) pair sits at its index 13 * suit ordinal + value ordinal, and the card at each position has that position as its index |
| `Decks.CreateDeck` | src/tld/deckofcards/Deck.java:61-67 | the nested loops build exactly 52 cards, card i being value i mod 13 of suit i div 13 (suit-major, value-minor); every card is present and none twice |
| `Decks.FullDeckHasEachCardOnce` | src/tld/deckofcards/Deck.java:61-67 | each of the 52 (value, suit) pairs occurs exactly once in the full deck |
| `Decks.Populated` | src/tld/deckofcards/Deck.java:90 | the lazy initialization (also at line 124): a present list is used as it is, and a missing one becomes the full deck of 52 cards with none twice |
| `Decks.AtMostFullDeck` | src/tld/deckofcards/Deck.java:56 | a list of cards with no duplicate holds at most 52 cards, so a deck never grows past the full deck |
| `Decks.AddChunk` | src/tld/deckofcards/Deck.java:81-85 | takes min(chunkSize, size of hand) cards off the front of the hand (none when chunkSize <= 0, the hand is empty or missing); the chunk holds them last-taken first; the hand keeps the untouched rest; no card is lost |
| `Decks.Reversed` | src/tld/deckofcards/Deck.java:83 | pushing popped cards onto the front reverses them: same length, the k-th from the end at position k |
| `Decks.ReversedKeepsElements` | src/tld/deckofcards/Deck.java:83 | the reversed cards are the same cards, each as often as before |
| `Decks.Chunk` | src/tld/deckofcards/Deck.java:81-85 | the stack a chunk of size n builds holds min(n, size of hand) cards (none when n <= 0), the last one taken first, and with the rest of the hand it is the whole hand |
| `Decks.SplitPoint` | src/tld/deckofcards/Deck.java:97-99 | the cut is deckSize/2 - 2 + r whenever that lies in the deck, else clamped to 0 or deckSize - 1; it is always below deckSize |
| `Decks.SplitNearMiddle` | src/tld/deckofcards/Deck.java:95-97 | with a split draw in [0, 5) the cut is within two cards of the middle |
| `Decks.SplitPartitions` | src/tld/deckofcards/Deck.java:100-101 | the left hand followed by the right hand is the input, and the right hand is never empty |
| `Decks.Round` | src/tld/deckofcards/Deck.java:104-114 | one round moves cards from the hands to the output without creating or losing any: each hand keeps what its chunk did not take, and the output is the old output followed by exactly the cards taken |
| `Decks.ChunksKeepCards` | src/tld/deckofcards/Deck.java:107-114 | appending the two chunks in either order keeps every card, grows the output by the cards taken and puts them after the old output |
| `Decks.Interleave` | src/tld/deckofcards/Deck.java:103-115 | a finished interleaving outputs exactly the multiset of cards the output and hands held when it began, after the cards already output |
| `Decks.IdleRoundsChangeNothing` | src/tld/deckofcards/Deck.java:106 | rounds whose two chunk sizes are 0 change nothing: dropping them from the draws gives the same result |
| `Decks.CoinOrdersChunksOnly` | src/tld/deckofcards/Deck.java:107-114 | the coin only decides which of the two chunks is appended first; the same cards leave each hand either way |
| `Decks.BusyRoundsFinish` | src/tld/deckofcards/Deck.java:103-115 | when every round takes at least one card per hand, as many rounds as cards are enough to empty both hands |
| `Decks.InterleaveHands` | src/tld/deckofcards/Deck.java:103-115 | the interleaving loop computes `Interleave` of its hands and draws, and its output is a permutation of the two hands |
| `Decks.ShuffleOnce` | src/tld/deckofcards/Deck.java:89-117 | one pass computes `RiffleOnce`: a missing list becomes the full deck, an empty one gives an empty result, and a finished pass is a permutation of its input of the same length |
| `Decks.RiffleOnce` | src/tld/deckofcards/Deck.java:89-117 | a finished pass has the same length and the same multiset of cards as its populated input, and an empty input gives an empty result |
| `Decks.RepeatRiffle` | src/tld/deckofcards/Deck.java:131-133 | repeated passes keep the multiset and size of the populated deck, at least one finished pass leaves the deck populated, and the deck stays unpopulated only if it started so |
| `Decks.PassStep` | src/tld/deckofcards/Deck.java:131-133 | one step of the shuffle loop: a pass that runs out of draws ends the run with the list unchanged; otherwise the run continues from the pass's result, which keeps the deck's cards and has no duplicate when the deck had none |
| `Decks.Deck.constructor` | src/tld/deckofcards/Deck.java:56 | a new deck is unpopulated |
| `Decks.Deck.Shuffle` | src/tld/deckofcards/Deck.java:131-133 | seven passes replace the list by `RepeatRiffle` of it; the deck keeps its cards (populated first if needed) and never holds a card twice |
| `Decks.Deck.DealOneCard` | src/tld/deckofcards/Deck.java:123-127 | an unpopulated deck is first populated; an empty deck returns None and stays empty; otherwise the former first card is returned and the deck becomes the former tail |
| `Decks.DealUntilEmpty` | src/tld/deckofcards/Deck.java:70-77 | dealing until None returns the deck's former contents front first and leaves it empty |
| `Decks.ShuffleThenDealAll` | src/tld/deckofcards/Deck.java:136-140 | a new deck, shuffled and dealt until empty, gives 52 cards with each (value, suit) pair exactly once, and a further deal gives None |

## Left out

- The `java.util.Random` generator and its clock seeding (Deck.java line 46): every draw is a caller-supplied value with its range as a precondition.
- The unbounded retry of the interleaving loop: round draws are a finite sequence, and a pass that uses them up before both hands are empty returns `OutOfDraws` (the Java loop would draw again). `Decks.Deck.Shuffle` then stops and leaves the list as the last finished pass left it, which is what Java's `cards = shuffleOnce(cards)` does for a pass that never returns.
- The coin draw of an idle round: Java draws no coin when both chunk sizes are 0; here every `Draw` carries a coin, which an idle round ignores.
- Console output: `PrintDeckToConsole` is modelled as `DealUntilEmpty` without its prints, and `main` as `ShuffleThenDealAll` without them.
- `String.format` and the enumerations' `toString`: the names are fixed string constants.
- The statistical claim that seven passes mix the deck well (Deck.java line 49): it is not a property of any single run.
- `LinkedList` object identity: the hands, chunks and lists are values, so `AddChunk` returns the rest of the hand instead of shortening it in place.
- Card identity and null: a card is a value compared by its pair; Java object identity and null fields are not modelled.
- Thread-safety remarks (Deck.java lines 53-55): the code has no concurrency.
