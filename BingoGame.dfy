/** The `BingoGame` class: the game without the economy. It keeps the drawn
    numbers, the card's numbers, the cell texts and the marking array, and
    leaves coins, the database and messages to its caller. */
module Game {
  import opened Grid
  import opened Decimal
  import opened Card
  import Win
  import opened Board
  import opened Economy

  function Last(s: seq<int>): int
    requires |s| > 0
  {
    s[|s| - 1]
  }

  class BingoGame {
    var drawnNumbers: seq<int>
    var cardNumbers: set<int>
    /** The text of each cell once a card is set up. */
    var cells: Cells
    var marked: array2<bool>
    /** The card the cells show. */
    ghost var card: Card
    /** Whether a card has been set up; before that the cells are empty. */
    ghost var hasCard: bool

    ghost predicate Valid()
      reads this
    {
      && marked.Length0 == 5 && marked.Length1 == 5
      && Is5x5(cells) && Is5x5(card)
      && (hasCard ==> cells == Texts(card))
      && Distinct(drawnNumbers) && AllInRange(drawnNumbers, 1, MAX_NUMBER)
    }

    /** The field initialisers: nothing drawn, no card, nothing marked. */
    constructor()
      ensures Valid() && !hasCard
      ensures drawnNumbers == [] && cardNumbers == {}
      ensures fresh(marked) && Snapshot(marked) == AllFalse()
    {
      drawnNumbers := [];
      cardNumbers := {};
      cells := seq(5, r => seq(5, c => ""));
      marked := new bool[5, 5]((r, c) => false);
      card := seq(5, r => seq(5, c => FREE));
      hasCard := false;
      new;
      SameGridEqual(Snapshot(marked), AllFalse());
    }

    /** `loadBingoCard`: shows the saved card, collects its numbers afresh and
        adopts the caller's marking array itself (later draws mark the
        caller's array); a FREE value on the card marks its centre. */
    method LoadBingoCard(saved: Card, m: array2<bool>)
      requires Valid() && Is5x5(saved) && m.Length0 == 5 && m.Length1 == 5
      modifies this, m
      ensures Valid() && hasCard && card == saved
      ensures cells == Texts(saved) && cardNumbers == NonFreeValues(saved)
      ensures marked == m && Snapshot(m) == FreeMarked(old(Snapshot(m)), saved)
      ensures drawnNumbers == old(drawnNumbers)
    {
      cardNumbers := {};
      cells, cardNumbers := SetupCard(saved, m, cardNumbers);
      marked := m;
      card := saved;
      hasCard := true;
    }

    /** `initializeBingoCard`: a new valid card over the current marks, which
        it does not reset; the card's numbers are added to `cardNumbers`,
        which it does not clear either. */
    method InitializeBingoCard()
      requires Valid()
      modifies this, marked
      ensures Valid() && hasCard && ValidCard(card)
      ensures cells == Texts(card) && cardNumbers == old(cardNumbers) + NonFreeValues(card)
      ensures marked == old(marked) && Snapshot(marked) == Set(old(Snapshot(marked)), 2, 2, true)
      ensures drawnNumbers == old(drawnNumbers)
    {
      var newCard;
      newCard, cells, cardNumbers := DealCard(marked, cardNumbers);
      card := newCard;
      hasCard := true;
    }

    /** `checkForBingo`. */
    method CheckForBingo() returns (bingo: bool)
      requires Valid()
      ensures bingo <==> Win.HasBingo(Snapshot(marked))
    {
      bingo := Win.CheckForBingo(marked);
    }

    /** `performDraw`: nothing happens without a coin or once 75 numbers are
        drawn; otherwise one number not drawn yet is appended and the first
        cell showing it is marked. The coins are the caller's: they are only
        read here. */
    method PerformDraw(coins: int)
      requires Valid()
      requires coins >= 1 && |drawnNumbers| < MAX_NUMBER ==> hasCard
      modifies this, marked
      ensures Valid()
      ensures marked == old(marked) && card == old(card) && hasCard == old(hasCard)
      ensures cells == old(cells) && cardNumbers == old(cardNumbers)
      ensures coins < 1 || |old(drawnNumbers)| >= MAX_NUMBER ==>
        drawnNumbers == old(drawnNumbers) && Snapshot(marked) == old(Snapshot(marked))
      ensures coins >= 1 && |old(drawnNumbers)| < MAX_NUMBER ==>
        && |drawnNumbers| > 0
        && drawnNumbers == old(drawnNumbers) + [Last(drawnNumbers)]
        && 1 <= Last(drawnNumbers) <= MAX_NUMBER && Last(drawnNumbers) !in old(drawnNumbers)
        && Snapshot(marked) == MarkAt(old(Snapshot(marked)), FirstMatch(cells, Show(Last(drawnNumbers))))
    {
      if coins < 1 || |drawnNumbers| >= MAX_NUMBER {
        return;
      }
      var newNumber := DrawNumber(drawnNumbers, cells, marked);
      drawnNumbers := drawnNumbers + [newNumber];
    }

    /** `performRestart`: the drawn list and the card's numbers are cleared,
        a fresh marking array replaces the old one, and a new card goes on it;
        afterwards only the FREE centre is marked. */
    method PerformRestart()
      requires Valid()
      modifies this
      ensures Valid() && hasCard && ValidCard(card) && cells == Texts(card)
      ensures drawnNumbers == [] && cardNumbers == NonFreeValues(card)
      ensures fresh(marked) && Snapshot(marked) == CenterOnly()
    {
      drawnNumbers := [];
      cardNumbers := {};
      marked := new bool[5, 5]((r, c) => false);
      SameGridEqual(Snapshot(marked), AllFalse());
      InitializeBingoCard();
    }

    /** `getCard`: the card read back from the cell texts is the card shown. */
    method GetCard() returns (c: Card)
      requires Valid() && hasCard
      ensures c == card
    {
      c := ReadCard(cells);
      ReadTexts(card, c);
    }
  }
}
