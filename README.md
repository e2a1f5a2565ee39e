# Bingo game: rules engine and coin economy

A Dafny model of the Android bingo game's core:

- **Cards.** A card is 5x5. Column `c` holds five different numbers from `15c+1 .. 15c+15`, in ascending order. The centre is FREE, stored as 0.
- **Draws.** A draw picks a number from 1 to 75 that has not been drawn yet. It marks the first cell, in row-major order, whose text is that number.
- **Wins.** A bingo is a fully marked row, column or diagonal.
- **The economy around the draws:**
  - a draw costs one coin and a bingo pays 50;
  - a registered user earns one coin per 30-second interval while the screen is active;
  - a registered user's restarts are limited to five per calendar day (the model states the limit as intended; the code as written lets it lapse after midnight, see Findings);
  - a guest has no coins and restarts without limit.
- **Persistence.** The game is saved in the user's database row as three comma-separated texts (card, drawn list, marks) and read back from them.

The modules follow the source's structure:

- `Grid`: 5x5 grids, a snapshot of the marking array as a value, and counting lemmas.
- `Decimal`: the decimal texts `String.valueOf` and `Integer.parseInt` exchange.
- `Card`: card generation.
- `Win`: the bingo test.
- `Board`: cell texts, the marking loop, the draw.
- `Codec`: the row's text columns.
- `Economy`: the coin tick and the daily quota, as values.
- `Database`: `DatabaseHelper` as a class over a map from user name to row.
- `Game`: the `BingoGame` class.
- `Activity`: the `MainActivity` class.

How the source's state becomes Dafny state:

- The marking array stays an `array2<bool>`. `loadBingoCard` adopts the caller's array, and the model keeps that aliasing.
- The cell widgets become their texts.
- A ghost `card` records the card the texts show.
- `Random` becomes a nondeterministic choice among the values the source's rejection loop accepts.
- The clock and today's date are parameters.

Two places need a note:

- **A card text that does not decode.** `getGameState` returns a state with a null card, and `loadBingoCard` then fails on it. The model therefore requires the stored row to be loadable (`Database.Loadable`).
- **The date written by a restart.** Here the model departs from the code. `UpdateResetInfo` and `RestartGame` store today's date where the code stores the date it read, and the code's behaviour is modelled separately and logged under Findings.

## Model

| member | source | states |
|---|---|---|
| Decimal.Show | app/src/main/java/ict/mgame/bingogame/MainActivity.java:189 | a number's text is a decimal literal that `Integer.parseInt` reads back as the same number, made of digits and an optional leading '-' |
| Decimal.ShowInjective | app/src/main/java/ict/mgame/bingogame/MainActivity.java:322 | two numbers have the same text iff they are equal, so comparing texts compares numbers |
| Decimal.ShowHasNoComma | app/src/main/java/ict/mgame/bingogame/DatabaseHelper.java:236-237 | no number's text contains the separator the saved texts use |
| Decimal.ShowIsNotWord | app/src/main/java/ict/mgame/bingogame/MainActivity.java:189 | no number's text is a capitalised word such as "FREE" |
| Card.Ascending | app/src/main/java/ict/mgame/bingogame/MainActivity.java:175-176 | the sorted copy of a column's set has exactly the set's members, as many as the set, in strictly increasing order |
| Card.ColumnNumbers | app/src/main/java/ict/mgame/bingogame/MainActivity.java:166-176 | the rejection loop yields five numbers of the column's range, sorted strictly ascending |
| Card.GenerateCard | app/src/main/java/ict/mgame/bingogame/MainActivity.java:163-182 | every generated card is valid: column c within 15c+1..15c+15 and strictly increasing, FREE at the centre |
| Card.ValidCardCells | app/src/main/java/ict/mgame/bingogame/MainActivity.java:163-182 | on a valid card FREE is at the centre and nowhere else, and no two cells hold the same value |
| Win.IsLineMarked | app/src/main/java/ict/mgame/bingogame/MainActivity.java:367-374 | true iff the given row (or column) of the marking array is fully marked |
| Win.CheckForBingo | app/src/main/java/ict/mgame/bingogame/MainActivity.java:349-365 | true iff some row, column or diagonal of the marking array is fully marked |
| Win.HasBingoIffSomeLine | app/src/main/java/ict/mgame/bingogame/MainActivity.java:349-365 | the loop's test agrees with an independent list of the twelve winning lines: a bingo iff one of them is fully marked |
| Win.LinesHaveFiveCells | app/src/main/java/ict/mgame/bingogame/MainActivity.java:349-374 | each of the twelve lines consists of five different cells |
| Win.HasBingoMonotone | app/src/main/java/ict/mgame/bingogame/MainActivity.java:349-365 | marking more cells never undoes a bingo |
| Win.NoBingoWithFourMarks | app/src/main/java/ict/mgame/bingogame/MainActivity.java:349-365 | four or fewer marked cells never make a bingo |
| Win.BingoExtremes | app/src/main/java/ict/mgame/bingogame/MainActivity.java:349-365 | a fully marked grid wins; an unmarked grid and a grid with only the centre marked do not |
| Win.BingoSingleLines | app/src/main/java/ict/mgame/bingogame/MainActivity.java:349-365 | the top row alone, or the anti-diagonal alone, is a bingo |
| Win.CenterOnlyNoBingo | app/src/main/java/ict/mgame/bingogame/MainActivity.java:271-277 | the marks of a new game (the centre only) hold no bingo, so the enabled draw button is right |
| Board.CellText | app/src/main/java/ict/mgame/bingogame/MainActivity.java:189 | a cell shows "FREE" iff its value is 0, and `saveGameState`'s reading of the text (line 288) gives the value back |
| Board.NonFreeValues | app/src/main/java/ict/mgame/bingogame/MainActivity.java:202-204 | the numbers collected into `cardNumbers` are exactly the card's values other than FREE |
| Board.FreeMarked | app/src/main/java/ict/mgame/bingogame/MainActivity.java:204-206 | setting up a card with a FREE value anywhere marks the centre; no other mark changes |
| Board.MatchIffValue | app/src/main/java/ict/mgame/bingogame/MainActivity.java:322 | a cell's text equals the drawn number's text iff the cell holds that number, never for FREE |
| Board.FirstMatch | app/src/main/java/ict/mgame/bingogame/MainActivity.java:319-330 | the result is a cell showing the text with no earlier such cell in row-major order, or none when no cell shows it |
| Board.FirstMatchIs | app/src/main/java/ict/mgame/bingogame/MainActivity.java:319-330 | a cell showing the text with no earlier one is the cell the loop finds |
| Board.MarkAtEffect | app/src/main/java/ict/mgame/bingogame/MainActivity.java:319-330 | a draw never unmarks a cell, marks only a cell holding the drawn number, and marks such a cell iff it is the first one |
| Board.MarkOnValidCard | app/src/main/java/ict/mgame/bingogame/MainActivity.java:319-330 | on a valid card a draw marks exactly the cell holding the number, and nothing when the card lacks it |
| Board.SetupCard | app/src/main/java/ict/mgame/bingogame/MainActivity.java:184-209 | the cells show the card's texts, the card's non-FREE values join the set, the marks become `FreeMarked` of the old marks |
| Board.DealCard | app/src/main/java/ict/mgame/bingogame/MainActivity.java:157-161 | a valid card is set up over the marks, and the only mark that changes is the centre, which becomes marked |
| Board.MarkFirstMatch | app/src/main/java/ict/mgame/bingogame/MainActivity.java:318-330 | reports whether a cell shows the number and marks exactly the first such cell |
| Board.ChooseUndrawn | app/src/main/java/ict/mgame/bingogame/MainActivity.java:310-313 | with fewer than 75 drawn, the rejection loop yields a number of 1..75 not drawn yet |
| Board.DrawNumber | app/src/main/java/ict/mgame/bingogame/MainActivity.java:310-330 | the new number is in 1..75 and fresh, the drawn list stays without repeats, and the marks are the first match marked |
| Board.ToArray | app/src/main/java/ict/mgame/bingogame/DatabaseHelper.java:291-302 | the decoded marks become a new 5x5 array holding them |
| Board.ReadCard | app/src/main/java/ict/mgame/bingogame/MainActivity.java:284-290 | each value is the cell text read back ("FREE" as 0, otherwise parsed) |
| Board.ReadTexts | app/src/main/java/ict/mgame/bingogame/MainActivity.java:282-291 | reading back the texts of a card gives that card |
| Codec.SplitBuild | app/src/main/java/ict/mgame/bingogame/DatabaseHelper.java:236-245 | splitting the joined parts at commas gives the parts back when none contains a comma |
| Codec.SerializeCard | app/src/main/java/ict/mgame/bingogame/DatabaseHelper.java:232-241 | the card text is non-empty and splits into 25 fields, field 5r+c being the decimal text of cell (r, c) |
| Codec.DeserializeCard | app/src/main/java/ict/mgame/bingogame/DatabaseHelper.java:243-259 | a card comes back iff the text has exactly 25 fields that all parse, and then holds the parsed fields row by row |
| Codec.CardRoundTrip | app/src/main/java/ict/mgame/bingogame/DatabaseHelper.java:232-259 | decoding a saved card gives the card |
| Codec.DeserializeList | app/src/main/java/ict/mgame/bingogame/DatabaseHelper.java:270-278 | the empty text gives the empty list; otherwise one number per field, in order |
| Codec.SerializeList | app/src/main/java/ict/mgame/bingogame/DatabaseHelper.java:261-268 | the drawn text is empty iff nothing has been drawn; otherwise it splits into one field per number, field i being the decimal text of number i |
| Codec.ListRoundTrip | app/src/main/java/ict/mgame/bingogame/DatabaseHelper.java:261-278 | a saved drawn list always decodes, and decoding it gives the list |
| Codec.SerializeMarked | app/src/main/java/ict/mgame/bingogame/DatabaseHelper.java:280-289 | the marks text has 25 fields, "1" or "0" for cell (r, c) at 5r+c |
| Codec.DeserializeMarked | app/src/main/java/ict/mgame/bingogame/DatabaseHelper.java:291-302 | the empty text gives no marks; otherwise a cell is marked iff its field is "1" |
| Codec.MarkedRoundTrip | app/src/main/java/ict/mgame/bingogame/DatabaseHelper.java:280-302 | decoding saved marks gives the marks |
| Economy.JavaRem | app/src/main/java/ict/mgame/bingogame/MainActivity.java:222 | Java's `%`: the remainder has the dividend's sign, a smaller magnitude than the divisor, and completes Java's identity `(a / b) * b + a % b == a` with the quotient rounded toward zero |
| Economy.CoinTick | app/src/main/java/ict/mgame/bingogame/MainActivity.java:215-222 | a full interval since the anchor pays one coin and moves the anchor to now, otherwise nothing changes; the countdown is in (0, 30000] for a clock that did not go back |
| Economy.SecondsShown | app/src/main/java/ict/mgame/bingogame/MainActivity.java:222-223 | the countdown shows the whole seconds left, rounded down: 0 to 30 while the clock runs forward, 30 to 59 after it went back |
| Economy.AtMostOneCoinPerInterval | app/src/main/java/ict/mgame/bingogame/MainActivity.java:211-228 | over any run of ticks at non-decreasing times, the coins paid times 30000 ms never exceed the time the anchor advanced; the anchor never passes the clock |
| Economy.NoCoinWithinIntervalOfCredit | app/src/main/java/ict/mgame/bingogame/MainActivity.java:218-221 | after a coin, no tick within the next 30 seconds pays another |
| Economy.CurrentQuota | app/src/main/java/ict/mgame/bingogame/MainActivity.java:243-253 | the quota is today's; a stored quota of another day counts as zero restarts, one of today stands |
| Economy.ConsumeReset | app/src/main/java/ict/mgame/bingogame/MainActivity.java:255-269 | on a new day a restart is allowed and counted as the first; on the same day it is allowed iff fewer than five were made, and counted; a refused restart leaves the quota; the count stays within 0..5 when it started there or was of another day |
| Economy.AtMostFiveRestartsPerDay | app/src/main/java/ict/mgame/bingogame/MainActivity.java:255-269 | however many restarts are tried on one day, at most five (at most 5 minus those already made) go through |
| Activity.DrawnAtMostAll | app/src/main/java/ict/mgame/bingogame/MainActivity.java:300-303 | a drawn list without repeats within 1..75 holds at most 75 numbers, and it holds 75 only when every number of 1..75 is in it, so the `size() >= 75` guard holds exactly when every number has been drawn |
| Economy.FiveThenRefused | app/src/main/java/ict/mgame/bingogame/MainActivity.java:255-269 | from another day's quota, six restarts give five allowed and one refused; an exhausted quota is allowed again the next day |
| Economy.ConsumeResetAsWritten | app/src/main/java/ict/mgame/bingogame/MainActivity.java:243-269 | as the code is written: on a new day the restart is allowed but stored with the old date |
| Economy.AsWrittenNeverRefuses | app/src/main/java/ict/mgame/bingogame/MainActivity.java:243-269 | as written, once the stored date is not today every one of n restarts goes through |
| Economy.SixRestartsAfterMidnight | app/src/main/java/ict/mgame/bingogame/MainActivity.java:243-269 | a row dated yesterday: the code allows six restarts in a row today, the intended quota refuses the sixth |
| Database.Decode | app/src/main/java/ict/mgame/bingogame/DatabaseHelper.java:212-230 | no saved state iff the card text is empty; otherwise the card is present iff its text decodes, and the marks are 5x5 |
| Database.Encode | app/src/main/java/ict/mgame/bingogame/DatabaseHelper.java:199-210 | a saved row is readable again and differs from the old row only in the three state columns |
| Database.SaveThenLoad | app/src/main/java/ict/mgame/bingogame/DatabaseHelper.java:199-230 | what `updateGameState` writes, `getGameState` reads back unchanged, whatever the row held before |
| Database.NewUserHasNoGame | app/src/main/java/ict/mgame/bingogame/DatabaseHelper.java:73-83 | a newly inserted row is readable and holds no saved game |
| Database.SavedIsLoadable | app/src/main/java/ict/mgame/bingogame/DatabaseHelper.java:199-210 | a row saved with a drawn list without repeats in 1..75 can be loaded again by the activity |
| Database.DatabaseHelper.constructor | app/src/main/java/ict/mgame/bingogame/DatabaseHelper.java:21-33 | the table starts empty |
| Database.DatabaseHelper.InsertUser | app/src/main/java/ict/mgame/bingogame/DatabaseHelper.java:73-83 | a new name gets a row with 20 coins and zeros elsewhere; an existing name (UNIQUE) leaves the table unchanged |
| Database.DatabaseHelper.IncrementWins | app/src/main/java/ict/mgame/bingogame/DatabaseHelper.java:122-128 | the user's wins go up by one and nothing else changes; no row, no change |
| Database.DatabaseHelper.UpdateCoins | app/src/main/java/ict/mgame/bingogame/DatabaseHelper.java:147-152 | only the user's coins column changes, to the given value |
| Database.DatabaseHelper.UpdateDailyResets | app/src/main/java/ict/mgame/bingogame/DatabaseHelper.java:183-189 | only the user's reset count and date change, to the given values |
| Database.DatabaseHelper.UpdateGameState | app/src/main/java/ict/mgame/bingogame/DatabaseHelper.java:199-210 | only the user's three state columns change, and they read back as the given game |
| Database.DatabaseHelper.GetGameState | app/src/main/java/ict/mgame/bingogame/DatabaseHelper.java:212-230 | no state without a row or with an empty card text; otherwise the decoded columns |
| Game.BingoGame.constructor | app/src/main/java/ict/mgame/bingogame/BingoGame.java:15-28 | nothing drawn, no card numbers, an unmarked array |
| Game.BingoGame.LoadBingoCard | app/src/main/java/ict/mgame/bingogame/BingoGame.java:36-41 | the saved card is shown, its numbers collected afresh, and the caller's array adopted with the centre marked if the card has FREE |
| Game.BingoGame.InitializeBingoCard | app/src/main/java/ict/mgame/bingogame/BingoGame.java:46-50 | a valid card over the current marks, only the centre newly marked; the card's numbers are added to the set |
| Game.BingoGame.CheckForBingo | app/src/main/java/ict/mgame/bingogame/BingoGame.java:106-131 | true iff the marks hold a full line |
| Game.BingoGame.PerformDraw | app/src/main/java/ict/mgame/bingogame/BingoGame.java:142-170 | without a coin or with 75 drawn nothing changes; otherwise one fresh number of 1..75 is appended and its first cell marked |
| Game.BingoGame.PerformRestart | app/src/main/java/ict/mgame/bingogame/BingoGame.java:175-181 | nothing drawn, a new array with only the centre marked, a new valid card and exactly its numbers |
| Game.BingoGame.GetCard | app/src/main/java/ict/mgame/bingogame/BingoGame.java:183-192 | the card read back from the cells is the card shown |
| Activity.MainActivity.constructor | app/src/main/java/ict/mgame/bingogame/MainActivity.java:35-72 | `onCreate` for a guest or a registered user, as `OnCreate` states it, including the frame on the table |
| Activity.MainActivity.OnCreate | app/src/main/java/ict/mgame/bingogame/MainActivity.java:67-72 | a guest gets no coins and a new card; a registered user's coins and today's quota are read, and the saved game is resumed or a new one dealt and saved; the draw button is enabled iff there is no bingo; a guest's start leaves the table alone, a registered start rewrites only that user's quota and saved game, and with a saved game only the quota |
| Activity.MainActivity.LoadRegistered | app/src/main/java/ict/mgame/bingogame/MainActivity.java:67-69 | the registered-user branch: the stored coins, the quota reset if its date is not today, the saved game resumed or a new game saved; only that user's quota and saved game are rewritten, and with a saved game only the quota |
| Activity.MainActivity.LoadUserData | app/src/main/java/ict/mgame/bingogame/MainActivity.java:91-97 | the coins come from the row, then the quota as `updateResetInfo` leaves it; only the quota columns change |
| Activity.MainActivity.UpdateResetInfo | app/src/main/java/ict/mgame/bingogame/MainActivity.java:243-253 | the quota on the screen and in the row becomes `CurrentQuota` of the stored one (corrected: with today's date) |
| Activity.MainActivity.LoadOrInitializeGameState | app/src/main/java/ict/mgame/bingogame/MainActivity.java:99-114 | a saved game is resumed as saved with the centre marked if FREE; without one a new valid card is dealt with only the centre marked and saved; only the saved-game columns change, and with a saved game nothing changes |
| Activity.MainActivity.ResumeGame | app/src/main/java/ict/mgame/bingogame/MainActivity.java:101-109 | the saved card, drawn list and marks are shown; the draw button is disabled iff they hold a bingo |
| Activity.MainActivity.SetupGuestMode | app/src/main/java/ict/mgame/bingogame/MainActivity.java:116-123 | no coins and a new valid card |
| Activity.MainActivity.LoadBingoCard | app/src/main/java/ict/mgame/bingogame/MainActivity.java:150-155 | the saved card is shown, its numbers collected afresh, the given array adopted |
| Activity.MainActivity.InitializeBingoCard | app/src/main/java/ict/mgame/bingogame/MainActivity.java:157-161 | a valid card over the current marks, only the centre newly marked; coins and quota unchanged |
| Activity.MainActivity.CheckForBingo | app/src/main/java/ict/mgame/bingogame/MainActivity.java:349-374 | true iff the marks hold a full line |
| Activity.MainActivity.SaveGameState | app/src/main/java/ict/mgame/bingogame/MainActivity.java:282-292 | a registered user's row then holds the card shown, the drawn list and the marks; a guest's save does nothing; no other column or row changes |
| Activity.MainActivity.AddCoin | app/src/main/java/ict/mgame/bingogame/MainActivity.java:236-241 | the coins go up by the amount on the screen and in that column only |
| Activity.MainActivity.Draw | app/src/main/java/ict/mgame/bingogame/MainActivity.java:294-347 | refused, with nothing changed, for a disabled button, a guest, no coin, or 75 drawn; otherwise one coin paid, a fresh number drawn and marked, and on bingo the button disabled, a win counted and 50 coins paid, everything saved; the user's password and restart quota and every other row stay as they were |
| Activity.MainActivity.PlayDraw | app/src/main/java/ict/mgame/bingogame/MainActivity.java:305-345 | a draw that goes ahead: one coin paid, a fresh number drawn, marked and saved, and on bingo the win, the bonus and the disabled button; only coins, wins and the saved game are rewritten |
| Activity.MainActivity.DrawAndSave | app/src/main/java/ict/mgame/bingogame/MainActivity.java:305-331 | one coin paid, a fresh number appended and its first cell marked, the game saved, wins unchanged; only coins and the saved game are rewritten |
| Activity.MainActivity.PayAndDraw | app/src/main/java/ict/mgame/bingogame/MainActivity.java:305-330 | one coin paid on the screen and in the row, a fresh number appended and its first cell marked; the table changes only in that user's coins |
| Activity.MainActivity.SpendCoin | app/src/main/java/ict/mgame/bingogame/MainActivity.java:305-307 | the coins go down by one on the screen and in the row |
| Activity.MainActivity.AwardBingo | app/src/main/java/ict/mgame/bingogame/MainActivity.java:334-345 | the button disabled, one more win and 50 more coins in the row, the game saved; the password, the quota and other rows are kept |
| Activity.MainActivity.RestartGame | app/src/main/java/ict/mgame/bingogame/MainActivity.java:255-269 | a guest always restarts, with the quota fields and the table unchanged; a registered user restarts iff `ConsumeReset` allows it, the quota stored as it says; a refused restart changes neither the screen nor the table; an allowed one rewrites only the user's quota and saved game |
| Activity.MainActivity.RestartRegistered | app/src/main/java/ict/mgame/bingogame/MainActivity.java:255-269 | the registered-user branch: the restart goes ahead iff `ConsumeReset` allows it and the quota is stored as it says; a refusal changes neither the screen nor the table; only the quota and the saved game are rewritten |
| Activity.MainActivity.PerformRestart | app/src/main/java/ict/mgame/bingogame/MainActivity.java:271-280 | nothing drawn, a new array with only the centre marked, a new valid card, the button enabled, and the new game saved |
| Activity.MainActivity.NewBoard | app/src/main/java/ict/mgame/bingogame/MainActivity.java:272-277 | the new game on the screen, before it is saved |
| Activity.MainActivity.ClearBoard | app/src/main/java/ict/mgame/bingogame/MainActivity.java:272-276 | nothing drawn, no card numbers, a new unmarked array, the button enabled |
| Activity.MainActivity.OnResume | app/src/main/java/ict/mgame/bingogame/MainActivity.java:133-139 | a registered user's timer starts, anchored now; a guest's does not |
| Activity.MainActivity.OnPause | app/src/main/java/ict/mgame/bingogame/MainActivity.java:141-148 | the timer stops and a registered user's game is saved |
| Activity.MainActivity.StartCoinTimer | app/src/main/java/ict/mgame/bingogame/MainActivity.java:211-228 | the anchor is now and the timer runs |
| Activity.MainActivity.StopCoinTimer | app/src/main/java/ict/mgame/bingogame/MainActivity.java:230-234 | the timer stops; nothing else changes |
| Activity.MainActivity.Tick | app/src/main/java/ict/mgame/bingogame/MainActivity.java:215-225 | coins, anchor and countdown are exactly `Economy.CoinTick`; a credited coin is also written to the row, and nothing else in the table changes; without a credit the table is unchanged |

## Left out

- Layout and feedback on the screen are left out because they are presentation: widgets, colours, toasts, and the texts shown ("Wins: N", "Coins: N", "Resets left: N", "Drawn: N").
- The SQLite schema, `onUpgrade`, cursors and transactions are left out: the table is a map from user name to row.
- `userExists`, `validateLogin` and `updatePassword`, and the login, register and settings screens, are left out because they are outside the game core.
- `getWins`, `getCoins`, `getDailyResets` and `getLastResetDate` are plain functions with their defaults (`GetWins`, `GetCoins`, `QuotaOf`) and carry no contract of their own.
- `getDrawnNumbers`, `getMarked` and the empty `setDrawEnabled` of `BingoGame` are left out because they only return fields or do nothing.
- Scheduling by `Handler` is left out: `Tick` is one run of the runnable at a given time, and `OnResume`/`OnPause` set whether it runs.
- The clock (`System.currentTimeMillis`) and the date (`SimpleDateFormat`) are parameters.
- `Random` is left out. A draw is a choice among the values the rejection loop accepts, and the termination of those loops with probability 1 is not modelled.
- Integers are unbounded. The model does not capture Java `int` overflow of coins or wins, or `long` overflow of the clock.
- `Integer.parseInt`'s 32-bit range is not modelled. A field counts as parseable when it is a decimal literal of any size.
- Java's `split` drops trailing empty fields; `Codec.Split` keeps them. The texts the program writes never end in a comma, so the two agree on them.
- DeserializeList and DeserializeMarked require decodable text, because on other text the source throws an exception that is not modelled. Every row the program writes meets this (`Database.DatabaseHelper.Valid`).
- Activity.MainActivity.constructor requires a stored row whose card text is empty or decodes, whose drawn list has no repeats within 1..75, and whose coins are not negative.
  - With a card text that does not decode, the source fails on a null card.
  - The other two conditions are the class invariants `ScreenOk` and `AccountOk`, which every handler's proof relies on. The source itself would go on running from such a row.
  - The program only writes rows that meet them (`Database.SavedIsLoadable`).
- Activity.MainActivity.UpdateResetInfo stores today's date when the stored date is another day; the code keeps the date it read (MainActivity.java:245). This is the corrected step, and the code's step is `Economy.ConsumeResetAsWritten`.
- Activity.MainActivity.RestartRegistered writes the count back with today's date; the code writes the date `updateResetInfo` read (MainActivity.java:266). This is the corrected step; the code's step is `Economy.ConsumeResetAsWritten`.
- Activity.MainActivity.RestartGame inherits that date from `Activity.MainActivity.RestartRegistered`, which does the write for a registered user.
- Activity.MainActivity.RestartGame: the class does not carry the bound 0..5 on `dailyResets` as an invariant, because a row's count is read without a check. `Economy.ConsumeReset` keeps the bound from any in-bound or earlier-dated quota.
- `Integer.parseInt` also accepts digits outside ASCII (any character `Character.digit` reads, such as Arabic-Indic digits). `Decimal.IsIntLiteral` accepts only '0'..'9'. The program only writes ASCII digits, so the texts it reads back agree.
- Game.BingoGame.PerformDraw (and `Game.BingoGame.GetCard`) require a loaded card, `hasCard`, when a draw would go ahead. Before `setupCardUI` (reached through `loadBingoCard` or `initializeBingoCard`) the source's cells are null and it throws `NullPointerException` (BingoGame.java:161, :187); the activity always sets up the card first.
- Activity.MainActivity.AddCoin requires a non-negative amount; the source only calls it with 1 and 50.
- Activity.MainActivity.Draw models the disabled button as a refusal (`ButtonDisabled`). In the source, a disabled button delivers no click at all.

## Findings

| source | as written | input that shows it | evidently intended | confidence | as-written member | corrected member |
|---|---|---|---|---|---|---|
| app/src/main/java/ict/mgame/bingogame/MainActivity.java:243-266 | on a new day `updateResetInfo` stores today's date but keeps the old date in `lastResetDate`; `restartGame` then writes the count back with that old date, so the row's date stays stale and every restart counts as the first of a new day | the screen opened on 2024-05-01 with a stored quota (3, "2024-05-01") and still open after midnight; six restarts on 2024-05-02: all six are allowed (a fresh `onCreate` on the new day writes today's date at line 248, and restarts then behave) | the stored date becomes today, so at most five restarts go through per day | not executed | Economy.SixRestartsAfterMidnight | Economy.AtMostFiveRestartsPerDay |
