/** DatabaseHelper's `users` table as a map from user name to row, with the
    row-wise operations the game uses. SQLite itself, the schema and its
    migrations are not part of this model; an `UPDATE ... WHERE username = ?`
    on a name without a row changes nothing, and a query on such a name reads
    the defaults its getter returns. */
module Database {
  import opened Grid
  import opened Card
  import opened Codec
  import opened Economy

  datatype UserRecord = UserRecord(
    password: string,
    wins: int,
    coins: int,
    dailyResets: int,
    lastResetDate: string,
    cardState: string,
    drawnState: string,
    markedState: string)

  /** `getGameState`'s result: the card is None when its text does not decode. */
  datatype GameState = GameState(card: Option<Card>, drawn: seq<int>, marked: Marks)

  /** The row `insertUser` adds: the given password, the starting coins and
      zero everywhere else; the three state columns take their default ''. */
  function NewUser(password: string): UserRecord {
    UserRecord(password, 0, START_COINS, 0, "", "", "", "")
  }

  /** A row whose drawn and marked texts the decoders read without an
      exception. */
  predicate RowDecodable(u: UserRecord) {
    ListTextOk(u.drawnState) && MarkedTextOk(u.markedState)
  }

  /** `getGameState` on an existing row: no saved state when the card text is
      empty, otherwise the three decoded columns. */
  function Decode(u: UserRecord): (s: Option<GameState>)
    requires RowDecodable(u)
    ensures s.None? <==> u.cardState == ""
    ensures s.Some? ==> (s.value.card.Some? <==> CardTextOk(u.cardState))
    ensures s.Some? ==> Is5x5(s.value.marked)
  {
    if u.cardState == "" then None
    else Some(GameState(DeserializeCard(u.cardState), DeserializeList(u.drawnState), DeserializeMarked(u.markedState)))
  }

  /** `updateGameState` on one row: the three state columns, nothing else. */
  function Encode(u: UserRecord, card: Card, drawn: seq<int>, marks: Marks): (v: UserRecord)
    requires Is5x5(card) && Is5x5(marks)
    ensures RowDecodable(v)
    ensures v.(cardState := u.cardState, drawnState := u.drawnState, markedState := u.markedState) == u
  {
    ListRoundTrip(drawn);
    MarkedRoundTrip(marks);
    u.(cardState := SerializeCard(card), drawnState := SerializeList(drawn), markedState := SerializeMarked(marks))
  }

  /** A saved game reads back as saved, whatever the row held before. */
  lemma SaveThenLoad(u: UserRecord, card: Card, drawn: seq<int>, marks: Marks)
    requires Is5x5(card) && Is5x5(marks)
    ensures Decode(Encode(u, card, drawn, marks)) == Some(GameState(Some(card), drawn, marks))
  {
    CardRoundTrip(card);
    ListRoundTrip(drawn);
    MarkedRoundTrip(marks);
  }

  /** A new user has no saved game. */
  lemma NewUserHasNoGame(password: string)
    ensures RowDecodable(NewUser(password)) && Decode(NewUser(password)) == None
  {
  }

  /** What the activity needs of a saved game to load it: a card text that is
      empty or decodes, and a drawn list without repeats within 1..75. */
  ghost predicate Loadable(u: UserRecord) {
    && RowDecodable(u)
    && (u.cardState == "" || CardTextOk(u.cardState))
    && Distinct(DeserializeList(u.drawnState))
    && AllInRange(DeserializeList(u.drawnState), 1, 75)
  }

  /** Every row the program saves can be loaded again. */
  lemma SavedIsLoadable(u: UserRecord, card: Card, drawn: seq<int>, marks: Marks)
    requires Is5x5(card) && Is5x5(marks)
    requires Distinct(drawn) && AllInRange(drawn, 1, 75)
    ensures Loadable(Encode(u, card, drawn, marks))
  {
    SaveThenLoad(u, card, drawn, marks);
  }

  // ---------------------------------------------------------------------
  // What a handler may rewrite in the table.

  /** The same names, and every row but name's as it was. */
  predicate OthersKept(m: map<string, UserRecord>, m': map<string, UserRecord>, name: string) {
    (name in m' <==> name in m) && m' - {name} == m - {name}
  }

  /** The columns a draw, a bingo, a coin or a save leave alone. */
  datatype Login = Login(password: string, dailyResets: int, lastResetDate: string)

  function LoginOf(u: UserRecord): Login {
    Login(u.password, u.dailyResets, u.lastResetDate)
  }

  /** The columns loading the user or a restart leaves alone. */
  datatype Score = Score(password: string, wins: int, coins: int)

  function ScoreOf(u: UserRecord): Score {
    Score(u.password, u.wins, u.coins)
  }

  /** A draw, a bingo, a coin or a save: name's row keeps its password and
      its restart quota; only the coins, the wins and the saved game may be
      rewritten. */
  predicate PlayWrites(m: map<string, UserRecord>, m': map<string, UserRecord>, name: string) {
    OthersKept(m, m', name) && (name in m ==> LoginOf(m'[name]) == LoginOf(m[name]))
  }

  /** Loading the user or a restart: name's row keeps its password, its wins
      and its coins; only the restart quota and the saved game may be
      rewritten. */
  predicate RestartWrites(m: map<string, UserRecord>, m': map<string, UserRecord>, name: string) {
    OthersKept(m, m', name) && (name in m ==> ScoreOf(m'[name]) == ScoreOf(m[name]))
  }

  /** Rewriting name's row leaves every other row as it was. */
  lemma RowRewrite(m: map<string, UserRecord>, name: string, v: UserRecord)
    requires name in m
    ensures OthersKept(m, m[name := v], name)
  {
    assert forall n :: n in m[name := v] - {name} <==> n in m - {name};
  }

  /** Two rewrites of the same kind in a row are one of that kind. */
  lemma PlayWritesTrans(m1: map<string, UserRecord>, m2: map<string, UserRecord>, m3: map<string, UserRecord>, name: string)
    requires PlayWrites(m1, m2, name) && PlayWrites(m2, m3, name)
    ensures PlayWrites(m1, m3, name)
  {
  }

  lemma RestartWritesTrans(m1: map<string, UserRecord>, m2: map<string, UserRecord>, m3: map<string, UserRecord>, name: string)
    requires RestartWrites(m1, m2, name) && RestartWrites(m2, m3, name)
    ensures RestartWrites(m1, m3, name)
  {
  }

  class DatabaseHelper {
    var users: map<string, UserRecord>

    /** Every row can be read by `getGameState` without an exception. */
    ghost predicate Valid()
      reads this
    {
      forall name :: name in users ==> RowDecodable(users[name])
    }

    constructor()
      ensures Valid() && users == map[]
    {
      users := map[];
    }

    /** `insertUser`: a new row with the defaults; the UNIQUE constraint on the
        name makes the insert fail, changing nothing, when the name has a row. */
    method InsertUser(name: string, password: string)
      requires Valid()
      modifies this
      ensures Valid()
      ensures name in old(users) ==> users == old(users)
      ensures name !in old(users) ==> users == old(users)[name := NewUser(password)]
    {
      if name !in users {
        users := users[name := NewUser(password)];
      }
    }

    function GetWins(name: string): int
      reads this
    {
      if name in users then users[name].wins else 0
    }

    function GetCoins(name: string): int
      reads this
    {
      if name in users then users[name].coins else 0
    }

    /** The quota columns, with the getters' defaults for a name without a row. */
    function QuotaOf(name: string): Quota
      reads this
    {
      if name in users then Quota(users[name].dailyResets, users[name].lastResetDate) else Quota(0, "")
    }

    /** `incrementWins`: wins read with `getWins`, plus one, written back. */
    method IncrementWins(name: string)
      requires Valid()
      modifies this
      ensures Valid()
      ensures name in old(users) ==> users == old(users)[name := old(users)[name].(wins := old(users)[name].wins + 1)]
      ensures name !in old(users) ==> users == old(users)
      ensures PlayWrites(old(users), users, name)
    {
      var currentWins := GetWins(name);
      if name in users {
        users := users[name := users[name].(wins := currentWins + 1)];
      }
    }

    /** `updateCoins`: the coins column, nothing else. */
    method UpdateCoins(name: string, newCoins: int)
      requires Valid()
      modifies this
      ensures Valid()
      ensures name in old(users) ==> users == old(users)[name := old(users)[name].(coins := newCoins)]
      ensures name !in old(users) ==> users == old(users)
      ensures PlayWrites(old(users), users, name)
    {
      if name in users {
        users := users[name := users[name].(coins := newCoins)];
      }
    }

    /** `updateDailyResets`: the reset count and its date, nothing else. */
    method UpdateDailyResets(name: string, newResets: int, newDate: string)
      requires Valid()
      modifies this
      ensures Valid()
      ensures name in old(users) ==>
        users == old(users)[name := old(users)[name].(dailyResets := newResets, lastResetDate := newDate)]
      ensures name !in old(users) ==> users == old(users)
      ensures name in users ==> QuotaOf(name) == Quota(newResets, newDate)
      ensures RestartWrites(old(users), users, name)
    {
      if name in users {
        users := users[name := users[name].(dailyResets := newResets, lastResetDate := newDate)];
      }
    }

    /** `updateGameState`: the three state columns, serialized. */
    method UpdateGameState(name: string, card: Card, drawn: seq<int>, marks: Marks)
      requires Valid() && Is5x5(card) && Is5x5(marks)
      modifies this
      ensures Valid()
      ensures name in old(users) ==> users == old(users)[name := Encode(old(users)[name], card, drawn, marks)]
      ensures name !in old(users) ==> users == old(users)
      ensures name in users ==> Decode(users[name]) == Some(GameState(Some(card), drawn, marks))
      ensures PlayWrites(old(users), users, name) && RestartWrites(old(users), users, name)
    {
      if name in users {
        var row := Encode(users[name], card, drawn, marks);
        SaveThenLoad(users[name], card, drawn, marks);
        RowRewrite(users, name, row);
        users := users[name := row];
      }
    }

    /** What `getGameState` reads for a name. */
    ghost function SavedGame(name: string): Option<GameState>
      reads this
      requires Valid()
    {
      if name in users then Decode(users[name]) else None
    }

    /** `getGameState`: None (the source's null) without a row or without a
        saved card; otherwise the decoded columns. */
    method GetGameState(name: string) returns (s: Option<GameState>)
      requires Valid()
      ensures name !in users ==> s == None
      ensures name in users ==> s == Decode(users[name])
      ensures s == SavedGame(name)
    {
      if name !in users {
        return None;
      }
      var u := users[name];
      if u.cardState == "" {
        return None;
      }
      var card := DeserializeCard(u.cardState);
      var drawn := DeserializeList(u.drawnState);
      var marked := DeserializeMarked(u.markedState);
      return Some(GameState(card, drawn, marked));
    }
  }
}
