/** The `MainActivity` screen: the draw and restart handlers, the coin timer
    and the saving of the game, over the user's row in the database. The
    screen's widgets become state: the cell texts, the marking array, and
    whether the draw button is enabled. The user name is an input ("Guest"
    when nobody is logged in), and so are the clock and today's date. */
module Activity {
  import opened Grid
  import opened Decimal
  import opened Card
  import Win
  import opened Board
  import opened Economy
  import opened Database

  /** What a click on the draw button comes to. */
  datatype DrawOutcome =
    | ButtonDisabled
    | NotEnoughCoins
    | AllDrawn
    | Drawn(number: int, bingo: bool)

  datatype RestartOutcome = Restarted | NoResetsLeft

  /** The fields of the economy: coins, the restart quota on the screen, and
      the coin timer. */
  datatype Account = Account(coins: int, dailyResets: int, lastResetDate: string, lastAddTime: int, timerRunning: bool)

  /** The fields of the game on the screen. */
  datatype Screen = Screen(
    drawnNumbers: seq<int>, cardNumbers: set<int>, cells: Cells, marked: array2<bool>,
    drawEnabled: bool, card: Card, hasCard: bool)

  /** A 5x5 marking array and card, the cells showing the card once there is
      one, and a drawn list without repeats within 1..75. */
  ghost predicate ScreenOk(s: Screen) {
    && s.marked.Length0 == 5 && s.marked.Length1 == 5
    && Is5x5(s.cells) && Is5x5(s.card)
    && (s.hasCard ==> s.cells == Texts(s.card))
    && Distinct(s.drawnNumbers) && AllInRange(s.drawnNumbers, 1, MAX_NUMBER)
  }

  /** Coins are never negative; a guest has none and no timer. */
  predicate AccountOk(a: Account, username: string) {
    a.coins >= 0 && (username == GUEST ==> a.coins == 0 && !a.timerRunning)
  }

  /** The drawn list of a screen never holds more than 75 numbers, and it
      holds 75 only when every number has been drawn: the draw handler's
      `size() >= 75` refusal comes exactly when no number is left. */
  lemma DrawnAtMostAll(s: Screen)
    requires ScreenOk(s)
    ensures |s.drawnNumbers| <= MAX_NUMBER
    ensures |s.drawnNumbers| >= MAX_NUMBER ==> forall x :: 1 <= x <= MAX_NUMBER ==> x in s.drawnNumbers
  {
    DistinctBounded(s.drawnNumbers, 1, MAX_NUMBER);
    if |s.drawnNumbers| >= MAX_NUMBER {
      forall x | 1 <= x <= MAX_NUMBER ensures x in s.drawnNumbers {
        if x !in s.drawnNumbers {
          var e := set y | y in s.drawnNumbers;
          ElementsSize(s.drawnNumbers);
          assert e <= Range(1, MAX_NUMBER) - {x};
          SubsetSize(e, Range(1, MAX_NUMBER) - {x});
          assert false;
        }
      }
    }
  }

  class MainActivity {
    const db: DatabaseHelper
    const username: string
    var coins: int
    var dailyResets: int
    var lastResetDate: string
    var lastAddTime: int
    /** Whether the coin timer's runnable is posted. */
    var timerRunning: bool
    /** The draw button; a bingo disables it. */
    var drawEnabled: bool
    var drawnNumbers: seq<int>
    var cardNumbers: set<int>
    var cells: Cells
    var marked: array2<bool>
    /** The card the cells show. */
    ghost var card: Card
    /** Whether a card has been set up. */
    ghost var hasCard: bool

    ghost predicate Valid()
      reads this, db
    {
      db.Valid() && ScreenOk(ScreenFields()) && AccountOk(AccountFields(), username)
    }

    ghost function AccountFields(): Account
      reads this
    {
      Account(coins, dailyResets, lastResetDate, lastAddTime, timerRunning)
    }

    ghost function ScreenFields(): Screen
      reads this
    {
      Screen(drawnNumbers, cardNumbers, cells, marked, drawEnabled, card, hasCard)
    }

    /** Valid, with a card on the screen: the state after `onCreate`. */
    ghost predicate Ready()
      reads this, db
    {
      Valid() && hasCard
    }

    /** The draw button is enabled exactly while the marks hold no bingo. */
    ghost predicate ButtonMatchesCard()
      reads this, marked
      requires marked.Length0 == 5 && marked.Length1 == 5
    {
      drawEnabled <==> !Win.HasBingo(Snapshot(marked))
    }

    /** The user's row holds the game on the screen. */
    ghost predicate GameSaved()
      reads this, db, marked
      requires Valid()
    {
      username != GUEST && username in db.users ==>
        db.SavedGame(username) == Some(GameState(Some(card), drawnNumbers, Snapshot(marked)))
    }

    /** The user's row holds the coins on the screen. */
    ghost predicate CoinsSaved()
      reads this, db
    {
      username in db.users ==> db.users[username].coins == coins
    }

    /** The field initialisers followed by `onCreate`: a guest gets no coins
        and a new card; a registered user's coins and restart quota are read
        (the quota reset if its date is not today), and the saved game is
        loaded, or a new one is started and saved when there is none. */
    constructor(db: DatabaseHelper, username: string, today: string)
      requires db.Valid()
      requires username != GUEST && username in db.users ==>
        Loadable(db.users[username]) && db.users[username].coins >= 0
      modifies db
      ensures Ready() && ButtonMatchesCard()
      ensures this.db == db && this.username == username && !timerRunning
      ensures username == GUEST ==>
        && coins == 0 && drawnNumbers == [] && ValidCard(card)
        && Snapshot(marked) == CenterOnly() && db.users == old(db.users)
      ensures username != GUEST ==>
        && coins == old(db.GetCoins(username))
        && Quota(dailyResets, lastResetDate) == CurrentQuota(old(db.QuotaOf(username)), today)
        && (username in db.users ==> db.QuotaOf(username) == Quota(dailyResets, lastResetDate))
        && CoinsSaved()
        && RestartWrites(old(db.users), db.users, username)
      ensures username != GUEST && old(db.SavedGame(username)).None? ==>
        && drawnNumbers == [] && ValidCard(card) && Snapshot(marked) == CenterOnly() && GameSaved()
      ensures username != GUEST && old(db.SavedGame(username)).Some? ==>
        && Some(card) == old(db.SavedGame(username)).value.card
        && drawnNumbers == old(db.SavedGame(username)).value.drawn
        && Snapshot(marked) == FreeMarked(old(db.SavedGame(username)).value.marked, card)
      ensures username != GUEST && old(db.SavedGame(username)).Some? && username in old(db.users) ==>
        db.users == old(db.users)[username := old(db.users)[username].(dailyResets := dailyResets, lastResetDate := lastResetDate)]
    {
      this.db := db;
      this.username := username;
      coins := 0;
      dailyResets := 0;
      lastResetDate := "";
      lastAddTime := 0;
      timerRunning := false;
      drawEnabled := true;
      drawnNumbers := [];
      cardNumbers := {};
      cells := seq(5, r => seq(5, c => ""));
      marked := new bool[5, 5]((r, c) => false);
      card := seq(5, r => seq(5, c => FREE));
      hasCard := false;
      new;
      SameGridEqual(Snapshot(marked), AllFalse());
      OnCreate(today);
    }

    /** The body of `onCreate` after the views and the user name are set up. */
    method OnCreate(today: string)
      requires Valid() && !timerRunning && drawEnabled
      requires drawnNumbers == [] && Snapshot(marked) == AllFalse()
      requires username != GUEST && username in db.users ==>
        Loadable(db.users[username]) && db.users[username].coins >= 0
      modifies this, db, marked
      ensures Ready() && ButtonMatchesCard() && !timerRunning
      ensures username == GUEST ==>
        && coins == 0 && drawnNumbers == [] && ValidCard(card)
        && Snapshot(marked) == CenterOnly() && db.users == old(db.users)
      ensures username != GUEST ==>
        && coins == old(db.GetCoins(username))
        && Quota(dailyResets, lastResetDate) == CurrentQuota(old(db.QuotaOf(username)), today)
        && (username in db.users ==> db.QuotaOf(username) == Quota(dailyResets, lastResetDate))
        && CoinsSaved()
        && RestartWrites(old(db.users), db.users, username)
      ensures username != GUEST && old(db.SavedGame(username)).None? ==>
        && drawnNumbers == [] && ValidCard(card) && Snapshot(marked) == CenterOnly() && GameSaved()
      ensures username != GUEST && old(db.SavedGame(username)).Some? ==>
        && Some(card) == old(db.SavedGame(username)).value.card
        && drawnNumbers == old(db.SavedGame(username)).value.drawn
        && Snapshot(marked) == FreeMarked(old(db.SavedGame(username)).value.marked, card)
      ensures username != GUEST && old(db.SavedGame(username)).Some? && username in old(db.users) ==>
        db.users == old(db.users)[username := old(db.users)[username].(dailyResets := dailyResets, lastResetDate := lastResetDate)]
    {
      if username != GUEST {
        LoadRegistered(today);
      } else {
        SetupGuestMode();
        Win.CenterOnlyNoBingo();
      }
    }

    /** `onCreate` for a registered user: `loadUserData`, then
        `loadOrInitializeGameState`. */
    method LoadRegistered(today: string)
      requires Valid() && !timerRunning && drawEnabled && username != GUEST
      requires drawnNumbers == [] && Snapshot(marked) == AllFalse()
      requires username in db.users ==> Loadable(db.users[username]) && db.users[username].coins >= 0
      modifies this, db, marked
      ensures Ready() && ButtonMatchesCard() && !timerRunning
      ensures coins == old(db.GetCoins(username)) && CoinsSaved()
      ensures Quota(dailyResets, lastResetDate) == CurrentQuota(old(db.QuotaOf(username)), today)
      ensures username in db.users ==> db.QuotaOf(username) == Quota(dailyResets, lastResetDate)
      ensures RestartWrites(old(db.users), db.users, username)
      ensures old(db.SavedGame(username)).None? ==>
        && drawnNumbers == [] && ValidCard(card) && Snapshot(marked) == CenterOnly() && GameSaved()
      ensures old(db.SavedGame(username)).Some? ==>
        && Some(card) == old(db.SavedGame(username)).value.card
        && drawnNumbers == old(db.SavedGame(username)).value.drawn
        && Snapshot(marked) == FreeMarked(old(db.SavedGame(username)).value.marked, card)
      ensures old(db.SavedGame(username)).Some? && username in old(db.users) ==>
        db.users == old(db.users)[username := old(db.users)[username].(dailyResets := dailyResets, lastResetDate := lastResetDate)]
    {
      ghost var q0 := db.QuotaOf(username);
      ghost var t0 := db.users;
      LoadUserData(today);
      ghost var acc := AccountFields();
      ghost var t1 := db.users;
      assert Quota(dailyResets, lastResetDate) == CurrentQuota(q0, today);
      LoadOrInitializeGameState();
      assert AccountFields() == acc;
      RestartWritesTrans(t0, t1, db.users, username);
    }

    /** `loadUserData`: the coins from the row, then `updateResetInfo`. */
    method LoadUserData(today: string)
      requires Valid() && username != GUEST
      requires username in db.users ==> db.users[username].coins >= 0
      modifies this, db
      ensures Valid()
      ensures coins == old(db.GetCoins(username)) && CoinsSaved()
      ensures Quota(dailyResets, lastResetDate) == CurrentQuota(old(db.QuotaOf(username)), today)
      ensures username in old(db.users) ==>
        db.users == old(db.users)[username := old(db.users)[username].(dailyResets := dailyResets, lastResetDate := lastResetDate)]
      ensures username !in old(db.users) ==> db.users == old(db.users)
      ensures RestartWrites(old(db.users), db.users, username)
      ensures username in db.users ==> db.QuotaOf(username) == Quota(dailyResets, lastResetDate)
      ensures db.SavedGame(username) == old(db.SavedGame(username))
      ensures username in old(db.users) && Loadable(old(db.users[username])) ==> Loadable(db.users[username])
      ensures ScreenFields() == old(ScreenFields())
      ensures AccountFields() == old(AccountFields()).(coins := coins, dailyResets := dailyResets, lastResetDate := lastResetDate)
    {
      coins := db.GetCoins(username);
      UpdateResetInfo(today);
    }

    /** `updateResetInfo`, corrected: a stored quota of another day is reset
        to 0 for today, in the row and on the screen; otherwise the stored
        count stands. (The source keeps the date it read, not today: see
        `Economy.ConsumeResetAsWritten`.) */
    method UpdateResetInfo(today: string)
      requires Valid()
      modifies this, db
      ensures Valid()
      ensures Quota(dailyResets, lastResetDate) == CurrentQuota(old(db.QuotaOf(username)), today)
      ensures username in old(db.users) ==>
        db.users == old(db.users)[username := old(db.users)[username].(dailyResets := dailyResets, lastResetDate := lastResetDate)]
      ensures username !in old(db.users) ==> db.users == old(db.users)
      ensures RestartWrites(old(db.users), db.users, username)
      ensures username in db.users ==> db.QuotaOf(username) == Quota(dailyResets, lastResetDate)
      ensures ScreenFields() == old(ScreenFields())
      ensures AccountFields() == old(AccountFields()).(dailyResets := dailyResets, lastResetDate := lastResetDate)
    {
      var stored := db.QuotaOf(username);
      lastResetDate := stored.date;
      if today != lastResetDate {
        dailyResets := 0;
        db.UpdateDailyResets(username, 0, today);
        lastResetDate := today;
      } else {
        dailyResets := stored.resets;
      }
    }

    /** `loadOrInitializeGameState`: a saved game is shown with fresh marks
        decoded from the row, its drawn list adopted, and the draw button
        disabled if it already holds a bingo; without one, a new card is
        dealt and saved. */
    method LoadOrInitializeGameState()
      requires Valid() && username != GUEST
      requires username in db.users ==> Loadable(db.users[username])
      requires drawEnabled
      requires db.SavedGame(username).None? ==> drawnNumbers == [] && Snapshot(marked) == AllFalse()
      modifies this, db, marked
      ensures Ready() && ButtonMatchesCard()
      ensures AccountFields() == old(AccountFields()) && CoinsSaved() == old(CoinsSaved())
      ensures db.QuotaOf(username) == old(db.QuotaOf(username))
      ensures RestartWrites(old(db.users), db.users, username)
      ensures old(db.SavedGame(username)).None? ==>
        && drawnNumbers == [] && ValidCard(card) && Snapshot(marked) == CenterOnly() && GameSaved()
      ensures old(db.SavedGame(username)).Some? ==>
        && Some(card) == old(db.SavedGame(username)).value.card
        && drawnNumbers == old(db.SavedGame(username)).value.drawn
        && Snapshot(marked) == FreeMarked(old(db.SavedGame(username)).value.marked, card)
        && db.users == old(db.users)
    {
      var state := db.GetGameState(username);
      if state.Some? {
        ResumeGame(state.value);
      } else {
        InitializeBingoCard();
        Win.CenterOnlyNoBingo();
        SaveGameState();
      }
    }

    /** The saved-game branch of `loadOrInitializeGameState`. */
    method ResumeGame(saved: GameState)
      requires Valid() && drawEnabled
      requires saved.card.Some? && Is5x5(saved.card.value) && Is5x5(saved.marked)
      requires Distinct(saved.drawn) && AllInRange(saved.drawn, 1, MAX_NUMBER)
      modifies this
      ensures Ready() && ButtonMatchesCard()
      ensures AccountFields() == old(AccountFields())
      ensures Some(card) == saved.card && drawnNumbers == saved.drawn
      ensures Snapshot(marked) == FreeMarked(saved.marked, card)
    {
      var m := ToArray(saved.marked);
      LoadBingoCard(saved.card.value, m);
      drawnNumbers := saved.drawn;
      var bingo := CheckForBingo();
      if bingo {
        drawEnabled := false;
      }
    }

    /** `setupGuestMode`: no coins, and a new card. */
    method SetupGuestMode()
      requires Valid() && username == GUEST
      modifies this, marked
      ensures Ready() && coins == 0 && ValidCard(card)
      ensures Snapshot(marked) == Set(old(Snapshot(marked)), 2, 2, true)
      ensures drawnNumbers == old(drawnNumbers) && marked == old(marked) && drawEnabled == old(drawEnabled)
      ensures AccountFields() == old(AccountFields()).(coins := 0)
    {
      coins := 0;
      InitializeBingoCard();
    }

    /** `loadBingoCard`: the saved card on the screen, its numbers collected
        afresh, and the given marking array adopted. */
    method LoadBingoCard(saved: Card, m: array2<bool>)
      requires Valid() && Is5x5(saved) && m.Length0 == 5 && m.Length1 == 5
      modifies this, m
      ensures Ready() && card == saved && marked == m
      ensures cells == Texts(saved) && cardNumbers == NonFreeValues(saved)
      ensures Snapshot(m) == FreeMarked(old(Snapshot(m)), saved)
      ensures drawnNumbers == old(drawnNumbers) && drawEnabled == old(drawEnabled)
      ensures AccountFields() == old(AccountFields())
    {
      cardNumbers := {};
      cells, cardNumbers := SetupCard(saved, m, cardNumbers);
      marked := m;
      card := saved;
      hasCard := true;
    }

    /** `initializeBingoCard`: a new valid card over the current marks; the
        FREE centre gets marked. */
    method InitializeBingoCard()
      requires Valid()
      modifies this, marked
      ensures Valid() && ValidCard(card)
      ensures ScreenFields() == old(ScreenFields()).(cells := Texts(card),
        cardNumbers := old(cardNumbers) + NonFreeValues(card), card := card, hasCard := true)
      ensures Snapshot(marked) == Set(old(Snapshot(marked)), 2, 2, true)
      ensures AccountFields() == old(AccountFields())
    {
      var newCard;
      newCard, cells, cardNumbers := DealCard(marked, cardNumbers);
      card := newCard;
      hasCard := true;
    }

    /** `checkForBingo`. */
    method CheckForBingo() returns (bingo: bool)
      requires Valid()
      ensures bingo <==> Win.HasBingo(Snapshot(marked))
    {
      bingo := Win.CheckForBingo(marked);
    }

    /** `saveGameState`: for a registered user, the card read back from the
        cells, the drawn list and the marks go to the row. */
    method SaveGameState()
      requires Ready()
      modifies db
      ensures Ready() && GameSaved()
      ensures CoinsSaved() == old(CoinsSaved()) && db.GetWins(username) == old(db.GetWins(username))
      ensures username == GUEST || username !in old(db.users) ==> db.users == old(db.users)
      ensures username != GUEST && username in old(db.users) ==>
        db.users == old(db.users)[username := Encode(old(db.users)[username], card, drawnNumbers, Snapshot(marked))]
      ensures PlayWrites(old(db.users), db.users, username) && RestartWrites(old(db.users), db.users, username)
    {
      if username == GUEST {
        return;
      }
      var c := ReadCard(cells);
      ReadTexts(card, c);
      db.UpdateGameState(username, c, drawnNumbers, Snapshot(marked));
    }

    /** `addCoin`: the coins go up by the amount, on the screen and in the row. */
    method AddCoin(amount: int)
      requires Valid() && username != GUEST && amount >= 0
      modifies this, db
      ensures Valid() && coins == old(coins) + amount && CoinsSaved()
      ensures username in old(db.users) ==> db.users == old(db.users)[username := old(db.users)[username].(coins := coins)]
      ensures username !in old(db.users) ==> db.users == old(db.users)
      ensures PlayWrites(old(db.users), db.users, username)
      ensures ScreenFields() == old(ScreenFields())
      ensures AccountFields() == old(AccountFields()).(coins := coins)
    {
      coins := coins + amount;
      db.UpdateCoins(username, coins);
    }

    /** The draw button's handler. A disabled button does nothing; a guest,
        a player without a coin, or a player who has drawn all 75 numbers is
        refused with nothing changed. Otherwise the draw costs one coin,
        appends a number not drawn yet, marks the first cell showing it and
        saves; a bingo then disables the button, counts a win, pays the bonus
        and saves again. */
    method Draw() returns (outcome: DrawOutcome)
      requires Ready() && ButtonMatchesCard()
      modifies this, db, marked
      ensures Ready() && ButtonMatchesCard()
      ensures ScreenFields() == old(ScreenFields()).(drawnNumbers := drawnNumbers, drawEnabled := drawEnabled)
      ensures AccountFields() == old(AccountFields()).(coins := coins)
      ensures !old(drawEnabled) ==> outcome == ButtonDisabled
      ensures old(drawEnabled) && (username == GUEST || old(coins) < DRAW_COST) ==> outcome == NotEnoughCoins
      ensures old(drawEnabled) && username != GUEST && old(coins) >= DRAW_COST && |old(drawnNumbers)| >= MAX_NUMBER ==>
        outcome == AllDrawn
      ensures old(drawEnabled) && username != GUEST && old(coins) >= DRAW_COST && |old(drawnNumbers)| < MAX_NUMBER ==>
        outcome.Drawn?
      ensures !outcome.Drawn? ==>
        && coins == old(coins) && drawnNumbers == old(drawnNumbers) && drawEnabled == old(drawEnabled)
        && Snapshot(marked) == old(Snapshot(marked)) && db.users == old(db.users)
      ensures outcome.Drawn? ==>
        && 1 <= outcome.number <= MAX_NUMBER && outcome.number !in old(drawnNumbers)
        && drawnNumbers == old(drawnNumbers) + [outcome.number]
        && Snapshot(marked) == MarkAt(old(Snapshot(marked)), FirstMatch(cells, Show(outcome.number)))
        && (outcome.bingo <==> Win.HasBingo(Snapshot(marked)))
        && coins == old(coins) - DRAW_COST + (if outcome.bingo then BINGO_BONUS else 0)
        && drawEnabled == !outcome.bingo
        && db.GetWins(username) == old(db.GetWins(username)) + (if outcome.bingo && username in db.users then 1 else 0)
        && CoinsSaved() && GameSaved()
      ensures PlayWrites(old(db.users), db.users, username)
    {
      if !drawEnabled {
        return ButtonDisabled;
      }
      if username == GUEST || coins < DRAW_COST {
        return NotEnoughCoins;
      }
      if |drawnNumbers| >= MAX_NUMBER {
        return AllDrawn;
      }
      var n, bingo := PlayDraw();
      return Drawn(n, bingo);
    }

    /** A draw that goes ahead: the coin paid, a number drawn, marked and
        saved; then a bingo disables the button, counts a win, pays the
        bonus and saves again. */
    method PlayDraw() returns (n: int, bingo: bool)
      requires Ready() && ButtonMatchesCard() && drawEnabled
      requires username != GUEST && coins >= DRAW_COST && |drawnNumbers| < MAX_NUMBER
      modifies this, db, marked
      ensures Ready() && ButtonMatchesCard()
      ensures ScreenFields() == old(ScreenFields()).(drawnNumbers := drawnNumbers, drawEnabled := drawEnabled)
      ensures AccountFields() == old(AccountFields()).(coins := coins)
      ensures 1 <= n <= MAX_NUMBER && n !in old(drawnNumbers) && drawnNumbers == old(drawnNumbers) + [n]
      ensures Snapshot(marked) == MarkAt(old(Snapshot(marked)), FirstMatch(cells, Show(n)))
      ensures bingo <==> Win.HasBingo(Snapshot(marked))
      ensures coins == old(coins) - DRAW_COST + (if bingo then BINGO_BONUS else 0)
      ensures drawEnabled == !bingo
      ensures db.GetWins(username) == old(db.GetWins(username)) + (if bingo && username in db.users then 1 else 0)
      ensures CoinsSaved() && GameSaved()
      ensures PlayWrites(old(db.users), db.users, username)
    {
      ghost var t0 := db.users;
      n := DrawAndSave();
      bingo := CheckForBingo();
      if bingo {
        ghost var t2 := db.users;
        AwardBingo();
        PlayWritesTrans(t0, t2, db.users, username);
      }
    }

    /** The accepted draw up to the bingo test: one coin paid, a number not
        drawn yet appended and marked, and the game saved. */
    method DrawAndSave() returns (n: int)
      requires Ready() && username != GUEST && coins >= DRAW_COST && |drawnNumbers| < MAX_NUMBER
      modifies this, db, marked
      ensures Ready() && CoinsSaved() && GameSaved()
      ensures ScreenFields() == old(ScreenFields()).(drawnNumbers := drawnNumbers)
      ensures AccountFields() == old(AccountFields()).(coins := old(coins) - DRAW_COST)
      ensures 1 <= n <= MAX_NUMBER && n !in old(drawnNumbers) && drawnNumbers == old(drawnNumbers) + [n]
      ensures Snapshot(marked) == MarkAt(old(Snapshot(marked)), FirstMatch(cells, Show(n)))
      ensures db.GetWins(username) == old(db.GetWins(username))
      ensures PlayWrites(old(db.users), db.users, username)
    {
      ghost var t0 := db.users;
      n := PayAndDraw();
      ghost var t1 := db.users;
      SaveGameState();
      PlayWritesTrans(t0, t1, db.users, username);
    }

    /** The accepted draw up to the save: one coin paid, and a number not drawn
        yet appended and marked. */
    method PayAndDraw() returns (n: int)
      requires Ready() && username != GUEST && coins >= DRAW_COST && |drawnNumbers| < MAX_NUMBER
      modifies this, db, marked
      ensures Ready() && CoinsSaved()
      ensures ScreenFields() == old(ScreenFields()).(drawnNumbers := drawnNumbers)
      ensures AccountFields() == old(AccountFields()).(coins := old(coins) - DRAW_COST)
      ensures 1 <= n <= MAX_NUMBER && n !in old(drawnNumbers) && drawnNumbers == old(drawnNumbers) + [n]
      ensures Snapshot(marked) == MarkAt(old(Snapshot(marked)), FirstMatch(cells, Show(n)))
      ensures username in old(db.users) ==> db.users == old(db.users)[username := old(db.users)[username].(coins := coins)]
      ensures username !in old(db.users) ==> db.users == old(db.users)
      ensures PlayWrites(old(db.users), db.users, username)
    {
      SpendCoin();
      n := DrawNumber(drawnNumbers, cells, marked);
      drawnNumbers := drawnNumbers + [n];
    }

    /** The price of a draw, taken on the screen and in the row. */
    method SpendCoin()
      requires Valid() && username != GUEST && coins >= DRAW_COST
      modifies this, db
      ensures Valid() && CoinsSaved() && db.GetWins(username) == old(db.GetWins(username))
      ensures ScreenFields() == old(ScreenFields())
      ensures AccountFields() == old(AccountFields()).(coins := old(coins) - DRAW_COST)
      ensures username in old(db.users) ==> db.users == old(db.users)[username := old(db.users)[username].(coins := coins)]
      ensures username !in old(db.users) ==> db.users == old(db.users)
      ensures PlayWrites(old(db.users), db.users, username)
    {
      coins := coins - DRAW_COST;
      db.UpdateCoins(username, coins);
    }

    /** A bingo after a draw: the button is disabled, the win counted, the
        bonus paid and the game saved again. */
    method AwardBingo()
      requires Ready() && username != GUEST
      modifies this, db
      ensures Ready() && CoinsSaved() && GameSaved()
      ensures ScreenFields() == old(ScreenFields()).(drawEnabled := false)
      ensures AccountFields() == old(AccountFields()).(coins := old(coins) + BINGO_BONUS)
      ensures db.GetWins(username) == old(db.GetWins(username)) + (if username in db.users then 1 else 0)
      ensures PlayWrites(old(db.users), db.users, username)
    {
      drawEnabled := false;
      ghost var t0 := db.users;
      db.IncrementWins(username);
      ghost var t1 := db.users;
      AddCoin(BINGO_BONUS);
      PlayWritesTrans(t0, t1, db.users, username);
      ghost var t2 := db.users;
      SaveGameState();
      PlayWritesTrans(t0, t2, db.users, username);
    }

    /** The restart button's handler. A guest restarts without limit. A
        registered user's restart goes through `Economy.ConsumeReset`: on a
        new day the count starts again at 0 for today; at the limit the
        restart is refused and the game stays; otherwise the count goes up in
        the row and a new game is dealt and saved. */
    method RestartGame(today: string) returns (outcome: RestartOutcome)
      requires Ready() && ButtonMatchesCard()
      modifies this, db
      ensures Ready() && ButtonMatchesCard()
      ensures AccountFields() == old(AccountFields()).(dailyResets := dailyResets, lastResetDate := lastResetDate)
      ensures username == GUEST ==> outcome == Restarted && db.users == old(db.users)
      ensures username == GUEST ==> dailyResets == old(dailyResets) && lastResetDate == old(lastResetDate)
      ensures username != GUEST ==>
        var r := ConsumeReset(old(db.QuotaOf(username)), today);
        && (outcome == Restarted <==> r.allowed)
        && Quota(dailyResets, lastResetDate) == r.stored
        && (username in db.users ==> db.QuotaOf(username) == r.stored)
        && (username in old(db.users) <==> username in db.users)
      ensures outcome == NoResetsLeft ==>
        ScreenFields() == old(ScreenFields()) && Snapshot(marked) == old(Snapshot(marked)) && db.users == old(db.users)
      ensures RestartWrites(old(db.users), db.users, username)
      ensures outcome == Restarted ==>
        && drawnNumbers == [] && fresh(marked) && Snapshot(marked) == CenterOnly()
        && ValidCard(card) && cardNumbers == NonFreeValues(card) && drawEnabled && GameSaved()
    {
      if username == GUEST {
        PerformRestart();
        return Restarted;
      }
      outcome := RestartRegistered(today);
    }

    /** The restart of a registered user: `updateResetInfo`, then the limit
        check, then the count written back and the new game. */
    method RestartRegistered(today: string) returns (outcome: RestartOutcome)
      requires Ready() && ButtonMatchesCard() && username != GUEST
      modifies this, db
      ensures Ready() && ButtonMatchesCard()
      ensures AccountFields() == old(AccountFields()).(dailyResets := dailyResets, lastResetDate := lastResetDate)
      ensures
        var r := ConsumeReset(old(db.QuotaOf(username)), today);
        && (outcome == Restarted <==> r.allowed)
        && Quota(dailyResets, lastResetDate) == r.stored
        && (username in db.users ==> db.QuotaOf(username) == r.stored)
        && (username in old(db.users) <==> username in db.users)
      ensures outcome == NoResetsLeft ==>
        ScreenFields() == old(ScreenFields()) && Snapshot(marked) == old(Snapshot(marked)) && db.users == old(db.users)
      ensures RestartWrites(old(db.users), db.users, username)
      ensures outcome == Restarted ==>
        && drawnNumbers == [] && fresh(marked) && Snapshot(marked) == CenterOnly()
        && ValidCard(card) && cardNumbers == NonFreeValues(card) && drawEnabled && GameSaved()
    {
      ghost var t0 := db.users;
      UpdateResetInfo(today);
      if dailyResets >= DAILY_RESET_LIMIT {
        return NoResetsLeft;
      }
      dailyResets := dailyResets + 1;
      ghost var t1 := db.users;
      db.UpdateDailyResets(username, dailyResets, lastResetDate);
      RestartWritesTrans(t0, t1, db.users, username);
      ghost var t2 := db.users;
      PerformRestart();
      RestartWritesTrans(t0, t2, db.users, username);
      return Restarted;
    }

    /** `performRestart`: the drawn list and the card's numbers are cleared,
        a fresh marking array replaces the old one, the draw button is
        enabled, and a new card is dealt and saved; only the FREE centre is
        marked. */
    method PerformRestart()
      requires Ready()
      modifies this, db
      ensures Ready() && ButtonMatchesCard() && GameSaved()
      ensures drawnNumbers == [] && fresh(marked) && Snapshot(marked) == CenterOnly()
      ensures ValidCard(card) && cells == Texts(card) && cardNumbers == NonFreeValues(card) && drawEnabled
      ensures AccountFields() == old(AccountFields())
      ensures username == GUEST || username !in old(db.users) ==> db.users == old(db.users)
      ensures username != GUEST && username in old(db.users) ==>
        db.users == old(db.users)[username := Encode(old(db.users)[username], card, [], CenterOnly())]
      ensures RestartWrites(old(db.users), db.users, username)
    {
      NewBoard();
      SaveGameState();
    }

    /** `performRestart` up to the save: a new game on the screen. */
    method NewBoard()
      requires Valid()
      modifies this
      ensures Ready() && ButtonMatchesCard()
      ensures drawnNumbers == [] && fresh(marked) && Snapshot(marked) == CenterOnly()
      ensures ValidCard(card) && cells == Texts(card) && cardNumbers == NonFreeValues(card) && drawEnabled
      ensures AccountFields() == old(AccountFields())
    {
      ClearBoard();
      InitializeBingoCard();
      Win.CenterOnlyNoBingo();
    }

    /** `performRestart`'s first steps: nothing drawn, no card numbers, a new
        unmarked array, the draw button enabled. */
    method ClearBoard()
      requires Valid()
      modifies this
      ensures Valid() && hasCard == old(hasCard)
      ensures drawnNumbers == [] && cardNumbers == {} && drawEnabled
      ensures fresh(marked) && Snapshot(marked) == AllFalse()
      ensures AccountFields() == old(AccountFields())
    {
      drawnNumbers := [];
      cardNumbers := {};
      marked := new bool[5, 5]((r, c) => false);
      SameGridEqual(Snapshot(marked), AllFalse());
      drawEnabled := true;
    }

    // -------------------------------------------------------------------
    // The coin timer. Scheduling is left out: `Tick` is one run of the
    // runnable, at the time given.

    /** `onResume`: a registered user's timer starts, anchored now. */
    method OnResume(now: int)
      requires Valid()
      modifies this
      ensures Valid()
      ensures ScreenFields() == old(ScreenFields())
      ensures username != GUEST ==> AccountFields() == old(AccountFields()).(lastAddTime := now, timerRunning := true)
      ensures username == GUEST ==> AccountFields() == old(AccountFields())
    {
      if username != GUEST {
        StartCoinTimer(now);
      }
    }

    /** `onPause`: the timer stops and a registered user's game is saved. */
    method OnPause()
      requires Ready()
      modifies this, db
      ensures Ready() && !timerRunning && GameSaved()
      ensures ScreenFields() == old(ScreenFields())
      ensures AccountFields() == old(AccountFields()).(timerRunning := false)
      ensures username != GUEST && username in old(db.users) ==>
        db.users == old(db.users)[username := Encode(old(db.users)[username], card, drawnNumbers, Snapshot(marked))]
      ensures username == GUEST || username !in old(db.users) ==> db.users == old(db.users)
    {
      StopCoinTimer();
      if username != GUEST {
        SaveGameState();
      }
    }

    /** `startCoinTimer`: the anchor is now and the runnable is posted. */
    method StartCoinTimer(now: int)
      requires Valid() && username != GUEST
      modifies this
      ensures Valid() && ScreenFields() == old(ScreenFields())
      ensures AccountFields() == old(AccountFields()).(lastAddTime := now, timerRunning := true)
    {
      lastAddTime := now;
      timerRunning := true;
    }

    /** `stopCoinTimer`: the runnable is removed. */
    method StopCoinTimer()
      requires Valid()
      modifies this
      ensures Valid() && ScreenFields() == old(ScreenFields())
      ensures AccountFields() == old(AccountFields()).(timerRunning := false)
    {
      timerRunning := false;
    }

    /** One run of the timer's runnable at time `now`: exactly
        `Economy.CoinTick`, the credited coin also written to the row; the
        result is the countdown in milliseconds. */
    method Tick(now: int) returns (remaining: int)
      requires Valid() && timerRunning
      modifies this, db
      ensures Valid() && timerRunning
      ensures var t := CoinTick(old(coins), old(lastAddTime), now);
        && AccountFields() == old(AccountFields()).(coins := t.coins, lastAddTime := t.lastAddTime)
        && remaining == t.remaining
      ensures coins != old(coins) && username in old(db.users) ==>
        db.users == old(db.users)[username := old(db.users)[username].(coins := coins)]
      ensures coins != old(coins) && username !in old(db.users) ==> db.users == old(db.users)
      ensures coins == old(coins) ==> db.users == old(db.users)
      ensures ScreenFields() == old(ScreenFields())
    {
      var elapsed := now - lastAddTime;
      if elapsed >= COIN_INTERVAL_MS {
        AddCoin(1);
        lastAddTime := now;
      }
      remaining := COIN_INTERVAL_MS - JavaRem(elapsed, COIN_INTERVAL_MS);
    }
  }
}
