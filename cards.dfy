/**
 * The card value type: a closed enumeration of thirteen face values, a closed
 * enumeration of four suits, an immutable (value, suit) pair, and its
 * "<Value> of <Suit>" rendering.
 */
module Cards {
  import opened Wrappers

  /** Face values, declared in the enumeration's order (Ace first, King last). */
  datatype CardValue =
    | Ace | Two | Three | Four | Five
    | Six | Seven | Eight | Nine | Ten
    | Jack | Queen | King

  /** Suits, declared in the enumeration's order. */
  datatype CardSuit = Clubs | Diamonds | Hearts | Spades

  /** A card is its (value, suit) pair and nothing else. */
  datatype Card = Card(value: CardValue, suit: CardSuit)

  /** Position of a value in the enumeration's declaration order. */
  function ValueOrdinal(v: CardValue): (i: nat)
    ensures i < 13
  {
    match v
    case Ace => 0
    case Two => 1
    case Three => 2
    case Four => 3
    case Five => 4
    case Six => 5
    case Seven => 6
    case Eight => 7
    case Nine => 8
    case Ten => 9
    case Jack => 10
    case Queen => 11
    case King => 12
  }

  /** Position of a suit in the enumeration's declaration order. */
  function SuitOrdinal(s: CardSuit): (i: nat)
    ensures i < 4
  {
    match s
    case Clubs => 0
    case Diamonds => 1
    case Hearts => 2
    case Spades => 3
  }

  /** All face values in declaration order, as the enumeration lists them. */
  function CardValues(): (vs: seq<CardValue>)
    ensures |vs| == 13
    ensures forall i :: 0 <= i < |vs| ==> ValueOrdinal(vs[i]) == i
    ensures forall v :: vs[ValueOrdinal(v)] == v
  {
    [Ace, Two, Three, Four, Five, Six, Seven, Eight, Nine, Ten, Jack, Queen, King]
  }

  /** All suits in declaration order, as the enumeration lists them. */
  function CardSuits(): (ss: seq<CardSuit>)
    ensures |ss| == 4
    ensures forall i :: 0 <= i < |ss| ==> SuitOrdinal(ss[i]) == i
    ensures forall s :: ss[SuitOrdinal(s)] == s
  {
    [Clubs, Diamonds, Hearts, Spades]
  }

  /** The enumerator's name, which is how a face value is rendered. */
  function ValueName(v: CardValue): (name: string)
    ensures |name| > 0 && ' ' !in name
    ensures ValueNamed(name) == Some(v)
  {
    match v
    case Ace => "Ace"
    case Two => "Two"
    case Three => "Three"
    case Four => "Four"
    case Five => "Five"
    case Six => "Six"
    case Seven => "Seven"
    case Eight => "Eight"
    case Nine => "Nine"
    case Ten => "Ten"
    case Jack => "Jack"
    case Queen => "Queen"
    case King => "King"
  }

  /** The enumerator's name, which is how a suit is rendered. */
  function SuitName(s: CardSuit): (name: string)
    ensures |name| > 0 && ' ' !in name
    ensures SuitNamed(name) == Some(s)
  {
    match s
    case Clubs => "Clubs"
    case Diamonds => "Diamonds"
    case Hearts => "Hearts"
    case Spades => "Spades"
  }

  /** The face value whose name is `name`, if any: the reverse of ValueName. */
  function ValueNamed(name: string): Option<CardValue>
  {
    if name == "Ace" then Some(Ace)
    else if name == "Two" then Some(Two)
    else if name == "Three" then Some(Three)
    else if name == "Four" then Some(Four)
    else if name == "Five" then Some(Five)
    else if name == "Six" then Some(Six)
    else if name == "Seven" then Some(Seven)
    else if name == "Eight" then Some(Eight)
    else if name == "Nine" then Some(Nine)
    else if name == "Ten" then Some(Ten)
    else if name == "Jack" then Some(Jack)
    else if name == "Queen" then Some(Queen)
    else if name == "King" then Some(King)
    else None
  }

  /** The suit whose name is `name`, if any: the reverse of SuitName. */
  function SuitNamed(name: string): Option<CardSuit>
  {
    if name == "Clubs" then Some(Clubs)
    else if name == "Diamonds" then Some(Diamonds)
    else if name == "Hearts" then Some(Hearts)
    else if name == "Spades" then Some(Spades)
    else None
  }

  /** Index of the first space in `text`, or |text| when there is none. */
  function FirstSpace(text: string): (k: nat)
    ensures k <= |text|
    ensures forall i :: 0 <= i < k ==> text[i] != ' '
    ensures k < |text| ==> text[k] == ' '
  {
    if text == [] || text[0] == ' ' then 0 else 1 + FirstSpace(text[1..])
  }

  /**
   * Reads a rendering back: the word before the first space must name a value,
   * " of " must follow, and the rest must name a suit.
   */
  function ParseCard(text: string): Option<Card>
  {
    var k := FirstSpace(text);
    if k + 4 <= |text| && text[k..k + 4] == " of " then
      match (ValueNamed(text[..k]), SuitNamed(text[k + 4..]))
      case (Some(v), Some(s)) => Some(Card(v, s))
      case _ => None
    else
      None
  }

  /** The first space of a space-free word followed by a space-led rest is right after the word. */
  lemma FirstSpaceAfterWord(word: string, rest: string)
    requires ' ' !in word
    requires |rest| > 0 && rest[0] == ' '
    ensures FirstSpace(word + rest) == |word|
  {
    var text := word + rest;
    assert text[|word|] == ' ';
    assert forall i :: 0 <= i < |word| ==> text[i] == word[i];
  }

  /**
   * The card's text: the value's name, then " of ", then the suit's name.
   * The text reads back as the same card.
   */
  function CardToString(card: Card): (text: string)
    ensures ParseCard(text) == Some(card)
  {
    var name, suit := ValueName(card.value), SuitName(card.suit);
    var text := name + " of " + suit;
    assert text == name + (" of " + suit);
    FirstSpaceAfterWord(name, " of " + suit);
    assert text[..|name|] == name;
    assert text[|name|..|name| + 4] == " of ";
    assert text[|name| + 4..] == suit;
    text
  }

  /** Two cards with different (value, suit) pairs never render to the same text. */
  lemma CardToStringInjective(a: Card, b: Card)
    ensures CardToString(a) == CardToString(b) <==> a == b
  {
  }

  /** A card is fully determined by its value and its suit. */
  lemma CardIsItsPair(a: Card, b: Card)
    ensures a == b <==> a.value == b.value && a.suit == b.suit
    ensures Card(a.value, a.suit) == a
  {
  }
}
