/** The coin economy of MainActivity as values: the constants, one step of
    the coin timer, and the daily restart quota that `updateResetInfo` and
    `restartGame` keep in the user's row. */
module Economy {

  const GUEST := "Guest"
  const COIN_INTERVAL_MS := 30000
  const DAILY_RESET_LIMIT := 5
  const DRAW_COST := 1
  const BINGO_BONUS := 50
  const START_COINS := 20
  /** Numbers are drawn from 1 to this. */
  const MAX_NUMBER := 75

  // ---------------------------------------------------------------------
  // The coin timer.

  /** Java's `/` on `long`: the quotient is rounded toward zero (Dafny's own
      `/` rounds so that the remainder is never negative). */
  function JavaQuot(a: int, b: int): int
    requires b > 0
  {
    if a >= 0 then a / b else -((-a) / b)
  }

  /** Java's `%` on `long`: the remainder takes the sign of the dividend and
      completes Java's identity (a / b) * b + (a % b) == a. */
  function JavaRem(a: int, b: int): (r: int)
    requires b > 0
    ensures a >= 0 ==> 0 <= r < b
    ensures a < 0 ==> -b < r <= 0
    ensures a >= 0 ==> r == a % b
    ensures JavaQuot(a, b) * b + r == a
  {
    if a >= 0 then a % b else -((-a) % b)
  }

  datatype Tick = Tick(coins: int, lastAddTime: int, remaining: int)

  /** One run of the timer's runnable at time `now`: a full interval since the
      anchor credits one coin and moves the anchor to `now` (not to anchor +
      interval, so no backlog is paid); `remaining` is what the countdown shows,
      computed from the elapsed time before the anchor moves. */
  function CoinTick(coins: int, lastAddTime: int, now: int): (t: Tick)
    ensures now - lastAddTime >= COIN_INTERVAL_MS ==> t.coins == coins + 1 && t.lastAddTime == now
    ensures now - lastAddTime < COIN_INTERVAL_MS ==> t.coins == coins && t.lastAddTime == lastAddTime
    ensures now >= lastAddTime ==> 0 < t.remaining <= COIN_INTERVAL_MS
    ensures now < lastAddTime ==> COIN_INTERVAL_MS <= t.remaining < 2 * COIN_INTERVAL_MS
  {
    var elapsed := now - lastAddTime;
    var due := elapsed >= COIN_INTERVAL_MS;
    Tick(if due then coins + 1 else coins,
         if due then now else lastAddTime,
         COIN_INTERVAL_MS - JavaRem(elapsed, COIN_INTERVAL_MS))
  }

  /** The countdown text shows whole seconds, Java's `/` rounding toward
      zero: 0..30 while the clock runs forward, and 30..59 for the remaining
      times `CoinTick` gives after the clock went back. */
  function SecondsShown(remaining: int): (s: int)
    ensures 0 <= remaining <= COIN_INTERVAL_MS ==> 0 <= s <= 30
    ensures COIN_INTERVAL_MS <= remaining < 2 * COIN_INTERVAL_MS ==> 30 <= s < 60
    ensures remaining >= 0 ==> s * 1000 <= remaining < s * 1000 + 1000
  {
    JavaQuot(remaining, 1000)
  }

  /** Ticks at the given times, one after the other, from coins and anchor. */
  function RunTicks(coins: int, anchor: int, times: seq<int>): Tick
    decreases |times|
  {
    if times == [] then Tick(coins, anchor, COIN_INTERVAL_MS)
    else
      var t := CoinTick(coins, anchor, times[0]);
      RunTicks(t.coins, t.lastAddTime, times[1..])
  }

  predicate NonDecreasingFrom(start: int, times: seq<int>) {
    (|times| > 0 ==> start <= times[0])
    && forall i :: 0 <= i < |times| - 1 ==> times[i] <= times[i + 1]
  }

  /** However the ticks are spaced, the timer never pays more than one coin per
      full interval since the anchor, and the anchor never passes the clock. */
  lemma {:induction false} AtMostOneCoinPerInterval(coins: int, anchor: int, times: seq<int>)
    requires NonDecreasingFrom(anchor, times)
    ensures var t := RunTicks(coins, anchor, times);
      && (t.coins - coins) * COIN_INTERVAL_MS <= t.lastAddTime - anchor
      && coins <= t.coins
      && anchor <= t.lastAddTime
      && (times != [] ==> t.lastAddTime <= times[|times| - 1])
    decreases |times|
  {
    if times != [] {
      var t := CoinTick(coins, anchor, times[0]);
      assert NonDecreasingFrom(t.lastAddTime, times[1..]);
      AtMostOneCoinPerInterval(t.coins, t.lastAddTime, times[1..]);
    }
  }

  /** After a credit, ticks within the next interval credit nothing. (That
      restarting the timer re-anchors it is `Activity.MainActivity.StartCoinTimer`'s
      contract, not this lemma's.) */
  lemma NoCoinWithinIntervalOfCredit(coins: int, anchor: int, now: int, later: int)
    requires now - anchor >= COIN_INTERVAL_MS
    requires now <= later < now + COIN_INTERVAL_MS
    ensures var t := CoinTick(coins, anchor, now);
      CoinTick(t.coins, t.lastAddTime, later).coins == coins + 1
  {
  }

  // ---------------------------------------------------------------------
  // The daily restart quota.

  /** The quota columns of a user's row. */
  datatype Quota = Quota(resets: int, date: string)

  datatype Restart = Restart(allowed: bool, stored: Quota)

  /** `updateResetInfo` as intended: a quota of another day counts as 0
      restarts today; a quota of today stands. */
  function CurrentQuota(stored: Quota, today: string): (q: Quota)
    ensures q.date == today
    ensures stored.date == today ==> q == stored
    ensures stored.date != today ==> q.resets == 0
  {
    if stored.date != today then Quota(0, today) else stored
  }

  /** A registered user's restart against the stored quota, as intended: on a
      new day the count first restarts at 0 for `today`; a restart is then
      allowed below the limit and counted. */
  function ConsumeReset(stored: Quota, today: string): (r: Restart)
    ensures r.stored.date == today
    ensures stored.date != today ==> r.allowed && r.stored.resets == 1
    ensures stored.date == today ==> (r.allowed <==> stored.resets < DAILY_RESET_LIMIT)
    ensures r.allowed && stored.date == today ==> r.stored.resets == stored.resets + 1
    ensures !r.allowed ==> r.stored == stored
    ensures (stored.date != today || 0 <= stored.resets <= DAILY_RESET_LIMIT) ==>
      0 <= r.stored.resets <= DAILY_RESET_LIMIT
  {
    var current := CurrentQuota(stored, today);
    if current.resets >= DAILY_RESET_LIMIT then Restart(false, current)
    else Restart(true, Quota(current.resets + 1, today))
  }

  /** The same step as the program writes it: on a new day the count is reset
      and `today` is stored, but the restart then writes its count back with
      the date it read before the reset. */
  function ConsumeResetAsWritten(stored: Quota, today: string): (r: Restart)
    ensures stored.date != today ==> r == Restart(true, Quota(1, stored.date))
    ensures stored.date == today ==> r == ConsumeReset(stored, today)
  {
    var readDate := stored.date;
    var current := if readDate != today then Quota(0, today) else stored;
    if current.resets >= DAILY_RESET_LIMIT then Restart(false, current)
    else Restart(true, Quota(current.resets + 1, readDate))
  }

  /** The outcomes of n restarts in a row on one day. */
  function Restarts(stored: Quota, today: string, n: nat): seq<bool>
    decreases n
  {
    if n == 0 then []
    else
      var r := ConsumeReset(stored, today);
      [r.allowed] + Restarts(r.stored, today, n - 1)
  }

  function RestartsAsWritten(stored: Quota, today: string, n: nat): seq<bool>
    decreases n
  {
    if n == 0 then []
    else
      var r := ConsumeResetAsWritten(stored, today);
      [r.allowed] + RestartsAsWritten(r.stored, today, n - 1)
  }

  function CountAllowed(outcomes: seq<bool>): nat
    decreases |outcomes|
  {
    if outcomes == [] then 0
    else (if outcomes[0] then 1 else 0) + CountAllowed(outcomes[1..])
  }

  /** On any one day at most five restarts go through, whatever is stored and
      however often the player tries. */
  lemma {:induction false} AtMostFiveRestartsPerDay(stored: Quota, today: string, n: nat)
    requires stored.date != today || 0 <= stored.resets
    ensures CountAllowed(Restarts(stored, today, n)) <= DAILY_RESET_LIMIT
    ensures stored.date == today ==>
      CountAllowed(Restarts(stored, today, n)) <= if stored.resets >= 5 then 0 else 5 - stored.resets
    decreases n
  {
    if n > 0 {
      var r := ConsumeReset(stored, today);
      AtMostFiveRestartsPerDay(r.stored, today, n - 1);
    }
  }

  /** From a stored quota of another day, restarts give five times true and
      then false; a later day starts over. */
  lemma FiveThenRefused(stored: Quota, today: string, tomorrow: string)
    requires stored.date != today && tomorrow != today
    ensures Restarts(stored, today, 6) == [true, true, true, true, true, false]
    ensures var q := Quota(5, today);
      ConsumeReset(q, today) == Restart(false, q)
      && ConsumeReset(q, tomorrow) == Restart(true, Quota(1, tomorrow))
  {
    var q1 := Quota(1, today);
    var q2 := Quota(2, today);
    var q3 := Quota(3, today);
    var q4 := Quota(4, today);
    var q5 := Quota(5, today);
    assert Restarts(q5, today, 1) == [false];
    assert Restarts(q4, today, 2) == [true, false];
    assert Restarts(q3, today, 3) == [true, true, false];
    assert Restarts(q2, today, 4) == [true, true, true, false];
    assert Restarts(q1, today, 5) == [true, true, true, true, false];
  }

  /** As written, once the stored date is not today every restart goes
      through and the stored date stays stale: the quota is never reached. */
  lemma {:induction false} AsWrittenNeverRefuses(stored: Quota, today: string, n: nat)
    requires stored.date != today
    ensures CountAllowed(RestartsAsWritten(stored, today, n)) == n
    decreases n
  {
    if n > 0 {
      var r := ConsumeResetAsWritten(stored, today);
      AsWrittenNeverRefuses(r.stored, today, n - 1);
    }
  }

  /** The concrete case: the row says yesterday, the player restarts six
      times today; the program allows all six, the intended quota refuses
      the sixth. */
  lemma SixRestartsAfterMidnight()
    ensures RestartsAsWritten(Quota(3, "2024-05-01"), "2024-05-02", 6) == [true, true, true, true, true, true]
    ensures Restarts(Quota(3, "2024-05-01"), "2024-05-02", 6) == [true, true, true, true, true, false]
  {
    var stored := Quota(3, "2024-05-01");
    var today := "2024-05-02";
    assert stored.date != today;
    var old1 := Quota(1, "2024-05-01");
    assert RestartsAsWritten(old1, today, 1) == [true];
    assert RestartsAsWritten(old1, today, 2) == [true, true];
    assert RestartsAsWritten(old1, today, 3) == [true, true, true];
    assert RestartsAsWritten(old1, today, 4) == [true, true, true, true];
    assert RestartsAsWritten(old1, today, 5) == [true, true, true, true, true];
    FiveThenRefused(stored, today, "2024-05-03");
  }
}
