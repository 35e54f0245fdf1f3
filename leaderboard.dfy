/**
 * The leaderboard engine (`LeaderboardManager`): the `leaderboard` table, its ordering, the
 * five-second snapshot cache, per-player rank lookup, the aggregate statistics and the
 * win/fail update.
 */
module Leaderboard {
  import opened Wrappers
  import opened Text
  import opened StableSort
  import opened Sums

  /** How long a computed leaderboard may be served again, in milliseconds. */
  const CacheDuration: int := 5000

  /** A row of the `leaderboard` table; `name` is the primary key. */
  datatype Row = Row(name: string, wins: nat, fails: nat, winrate: real, twitchId: string)

  /** A win or fail reported for a player. */
  datatype Play = Play(name: string, isWin: bool)

  function Games(row: Row): nat
  {
    row.wins + row.fails
  }

  /** `(part / whole) * 100`. */
  function Percent(part: nat, whole: nat): (p: real)
    requires 0 < whole && part <= whole
    ensures 0.0 <= p <= 100.0
    ensures part == whole ==> p == 100.0
    ensures part == 0 ==> p == 0.0
  {
    RatioBounds(part as real, whole as real);
    part as real / whole as real * 100.0
  }

  /** `x.toFixed(2)` read back as a number: rounded to two decimals, halves upward. */
  function Round2(x: real): (r: real)
    ensures x - 0.005 < r <= x + 0.005
    ensures 0.0 <= x ==> 0.0 <= r
    ensures x <= 100.0 ==> r <= 100.0
    ensures (x * 100.0).Floor as real == x * 100.0 ==> r == x
  {
    FloorBounds(x * 100.0 + 0.5);
    WholeStaysWhole(x * 100.0);
    (x * 100.0 + 0.5).Floor as real / 100.0
  }

  lemma FloorBounds(y: real)
    ensures y - 1.0 < y.Floor as real <= y
  {
  }

  lemma WholeStaysWhole(y: real)
    ensures y.Floor as real == y ==> (y + 0.5).Floor as real == y
  {
    if y.Floor as real == y {
      FloorOfHalfAbove(y.Floor, y + 0.5);
    }
  }

  /** Adding one half to a whole number does not change its floor. */
  lemma FloorOfHalfAbove(m: int, y: real)
    requires y == m as real + 0.5
    ensures y.Floor == m
  {
    FloorBounds(y);
  }

  /** The winrate `updatePlayer` stores: `((wins / (wins + fails)) * 100).toFixed(2)`. */
  function WinRate(wins: nat, fails: nat): (r: real)
    requires wins + fails > 0
    ensures 0.0 <= r <= 100.0
    ensures fails == 0 ==> r == 100.0
    ensures wins == 0 ==> r == 0.0
  {
    Round2(Percent(wins, wins + fails))
  }

  /** The stored winrate agrees with the counters (a row that never played stores 0). */
  predicate Consistent(row: Row)
  {
    row.winrate == if Games(row) == 0 then 0.0 else WinRate(row.wins, row.fails)
  }

  predicate AllConsistent(rows: seq<Row>)
  {
    forall i :: 0 <= i < |rows| ==> Consistent(rows[i])
  }

  /** At most one row per name: the primary key of the table. */
  predicate NamesUnique(rows: seq<Row>)
  {
    forall i, j :: 0 <= i < j < |rows| ==> rows[i].name != rows[j].name
  }

  // ---------------------------------------------------------------------------
  // Ordering (sortLeaderboard)
  // ---------------------------------------------------------------------------

  /** The comparator of `sortLeaderboard`: negative when `a` must come before `b`. */
  function Compare(a: Row, b: Row): real
  {
    if b.wins != a.wins then (b.wins - a.wins) as real
    else if a.wins > 0 then b.winrate - a.winrate
    else if a.fails != b.fails then (a.fails - b.fails) as real
    else LocaleCompare(a.name, b.name) as real
  }

  predicate RanksBefore(a: Row, b: Row)
  {
    Compare(a, b) < 0.0
  }

  /** The comparator is consistent, so the sort it drives has a well-defined result. */
  lemma RanksBeforeIsStrictWeakOrder()
    ensures StrictWeakOrder(RanksBefore)
  {
    forall a: Row, b: Row
      ensures RanksBefore(a, b) ==> !RanksBefore(b, a)
    {
    }
    forall a: Row, b: Row, c: Row
      ensures RanksBefore(a, c) ==> RanksBefore(a, b) || RanksBefore(b, c)
    {
      if RanksBefore(a, c) && a.wins == b.wins == c.wins == 0 && a.fails == b.fails == c.fails {
        PrecedesTrichotomy(a.name, b.name);
        if Precedes(b.name, a.name) {
          PrecedesTransitive(b.name, a.name, c.name);
        }
      }
    }
  }

  /** `sortLeaderboard(data)`: a sorted copy of `data` (the argument, a value, is not touched). */
  function SortLeaderboard(data: seq<Row>): (r: seq<Row>)
    ensures multiset(r) == multiset(data)
    ensures Sorted(r, RanksBefore)
  {
    RanksBeforeIsStrictWeakOrder();
    SortBySorted(data, RanksBefore);
    SortBy(data, RanksBefore)
  }

  /** The order of the leaderboard, key by key. */
  lemma LeaderboardOrder(data: seq<Row>)
    ensures var r := SortLeaderboard(data);
      && (forall i, j :: 0 <= i < j < |r| ==> r[i].wins >= r[j].wins)
      && (forall i :: 0 < i < |r| && r[i - 1].wins == r[i].wins > 0 ==> r[i - 1].winrate >= r[i].winrate)
      && (forall i :: 0 < i < |r| && r[i - 1].wins == r[i].wins == 0 ==>
            && r[i - 1].fails <= r[i].fails
            && (r[i - 1].fails == r[i].fails ==> r[i - 1].name == r[i].name || Precedes(r[i - 1].name, r[i].name)))
  {
    var r := SortLeaderboard(data);
    RanksBeforeIsStrictWeakOrder();
    SortedEverywhere(r, RanksBefore);
    forall i, j | 0 <= i < j < |r|
      ensures r[i].wins >= r[j].wins
    {
      assert !RanksBefore(r[j], r[i]);
    }
    forall i | 0 < i < |r|
      ensures !RanksBefore(r[i], r[i - 1])
    {
    }
  }

  /** Two rows the comparator calls equal: same wins, and then same winrate, or same fails and name. */
  lemma TiedRows(a: Row, b: Row)
    ensures Equivalent(a, b, RanksBefore) <==>
      && a.wins == b.wins
      && (a.wins > 0 ==> a.winrate == b.winrate)
      && (a.wins == 0 ==> a.fails == b.fails && a.name == b.name)
  {
  }

  /** Rows the comparator calls equal keep their input order (the sort is stable). */
  lemma LeaderboardStable(data: seq<Row>, x: Row)
    ensures EquivalentTo(SortLeaderboard(data), x, RanksBefore) == EquivalentTo(data, x, RanksBefore)
  {
    RanksBeforeIsStrictWeakOrder();
    SortByStable(data, x, RanksBefore);
  }

  // ---------------------------------------------------------------------------
  // Rank lookup (getPlayer)
  // ---------------------------------------------------------------------------

  /** `rows.findIndex(r => r.name === name)`: the first row with that name, or -1. */
  function IndexOfName(rows: seq<Row>, name: string): (i: int)
    ensures -1 <= i < |rows|
    ensures i == -1 <==> forall j :: 0 <= j < |rows| ==> rows[j].name != name
    ensures i >= 0 ==> rows[i].name == name && forall j :: 0 <= j < i ==> rows[j].name != name
  {
    if rows == [] then -1
    else if rows[0].name == name then 0
    else
      var k := IndexOfName(rows[1..], name);
      if k == -1 then -1 else k + 1
  }

  /** The answer of `getPlayer`: `{hasPlayed: false}`, or the rank `position/total` and the row's numbers. */
  datatype Standing = NeverPlayed | Ranked(position: nat, total: nat, wins: nat, fails: nat, winrate: real)

  /** `getPlayer(name)` against the snapshot `data`. */
  function PlayerStanding(data: seq<Row>, name: string): (p: Standing)
    ensures p.NeverPlayed? <==> forall j :: 0 <= j < |data| ==> data[j].name != name
    ensures p.Ranked? ==>
      && 1 <= p.position <= p.total == |data|
      && data[p.position - 1].name == name
      && (forall j :: 0 <= j < p.position - 1 ==> data[j].name != name)
      && p.wins == data[p.position - 1].wins
      && p.fails == data[p.position - 1].fails
      && p.winrate == data[p.position - 1].winrate
  {
    var index := IndexOfName(data, name);
    if index == -1 then NeverPlayed
    else
      var player := data[index];
      Ranked(index + 1, |data|, player.wins, player.fails, player.winrate)
  }

  /** In a sorted snapshot, nobody ranked above a player has fewer wins. */
  lemma RankReflectsWins(rows: seq<Row>, name: string)
    ensures var data := SortLeaderboard(rows);
      var p := PlayerStanding(data, name);
      p.Ranked? ==> forall j :: 0 <= j < p.position - 1 ==> data[j].wins >= p.wins
  {
    LeaderboardOrder(rows);
  }

  // ---------------------------------------------------------------------------
  // Aggregates (calculateLbStats)
  // ---------------------------------------------------------------------------

  /** The accumulator of the `reduce` in `calculateLbStats`. */
  datatype Totals = Totals(totalWinRate: real, totalGamesPlayed: nat, playerCount: nat)

  /** The fold: rows with at least one game add their own winrate, recomputed from the counters. */
  function Tally(data: seq<Row>): (t: Totals)
    ensures t.playerCount <= |data|
    ensures 0.0 <= t.totalWinRate <= 100.0 * t.playerCount as real
  {
    if data == [] then Totals(0.0, 0, 0)
    else
      var acc := Tally(data[..|data| - 1]);
      var row := data[|data| - 1];
      var totalGames := row.wins + row.fails;
      if totalGames > 0 then
        Totals(acc.totalWinRate + Percent(row.wins, totalGames), acc.totalGamesPlayed + totalGames, acc.playerCount + 1)
      else acc
  }

  /** What `calculateLbStats` returns (the average before its two-decimal rendering). */
  datatype LbStats = LbStats(averageWinRate: real, totalGamesPlayed: nat, playerCount: nat)

  function CalculateLbStats(data: seq<Row>): (s: LbStats)
    ensures s.playerCount <= |data|
    ensures 0.0 <= s.averageWinRate <= 100.0
    ensures s.playerCount == 0 ==> s.averageWinRate == 0.0
  {
    var t := Tally(data);
    var average := if t.playerCount > 0 then t.totalWinRate / t.playerCount as real else 0.0;
    MeanBounds(t.totalWinRate, t.playerCount);
    LbStats(average, t.totalGamesPlayed, t.playerCount)
  }

  lemma MeanBounds(total: real, count: nat)
    requires 0.0 <= total <= 100.0 * count as real
    ensures count > 0 ==> 0.0 <= total / count as real <= 100.0
  {
    if count > 0 {
      var n := count as real;
      assert total / n * n == total;
    }
  }

  function RateTerm(row: Row): real
  {
    if Games(row) > 0 then Percent(row.wins, Games(row)) else 0.0
  }

  function GamesTerm(row: Row): real
  {
    Games(row) as real
  }

  function PlayedTerm(row: Row): real
  {
    if Games(row) > 0 then 1.0 else 0.0
  }

  /**
   * The three totals as plain sums over every row: the player count counts the rows with a game,
   * the games total includes the rows with none (they add 0), and the rate total adds per-row rates.
   */
  lemma {:induction false} TallyIsSums(data: seq<Row>)
    ensures Tally(data).totalWinRate == Sum(data, RateTerm)
    ensures Tally(data).totalGamesPlayed as real == Sum(data, GamesTerm)
    ensures Tally(data).playerCount as real == Sum(data, PlayedTerm)
  {
    if data != [] {
      TallyIsSums(data[..|data| - 1]);
    }
  }

  /** Statistics depend only on the rows, not their order: the sorted snapshot gives the table's statistics. */
  lemma StatsOfSnapshot(rows: seq<Row>)
    ensures CalculateLbStats(SortLeaderboard(rows)) == CalculateLbStats(rows)
  {
    var data := SortLeaderboard(rows);
    TallyIsSums(data);
    TallyIsSums(rows);
    SumPermutation(data, rows, RateTerm);
    SumPermutation(data, rows, GamesTerm);
    SumPermutation(data, rows, PlayedTerm);
  }

  /** The stored `winrate` column plays no part: rows with the same counters give the same totals. */
  lemma {:induction false} TallyIgnoresStoredWinrate(a: seq<Row>, b: seq<Row>)
    requires |a| == |b|
    requires forall i :: 0 <= i < |a| ==> a[i].wins == b[i].wins && a[i].fails == b[i].fails
    ensures Tally(a) == Tally(b)
  {
    if a != [] {
      TallyIgnoresStoredWinrate(a[..|a| - 1], b[..|b| - 1]);
    }
  }

  // ---------------------------------------------------------------------------
  // Win/fail update (updatePlayer)
  // ---------------------------------------------------------------------------

  /** An existing row after one more win or fail, winrate recomputed from the new counters. */
  function Bumped(row: Row, isWin: bool): Row
  {
    var wins := if isWin then row.wins + 1 else row.wins;
    var fails := if isWin then row.fails else row.fails + 1;
    row.(wins := wins, fails := fails, winrate := WinRate(wins, fails))
  }

  /** The row `updatePlayer` inserts for a name it has never seen. */
  function FirstRow(name: string, isWin: bool): Row
  {
    var wins := if isWin then 1 else 0;
    var fails := if isWin then 0 else 1;
    Row(name, wins, fails, WinRate(wins, fails), "")
  }

  /** The table after the write of `updatePlayer(name, isWin)`. */
  function Record(rows: seq<Row>, name: string, isWin: bool): seq<Row>
  {
    var i := IndexOfName(rows, name);
    if i >= 0 then rows[i := Bumped(rows[i], isWin)] else rows + [FirstRow(name, isWin)]
  }

  /** Exactly one counter of exactly one row moves by one; a new name gets (1, 0, 100) or (0, 1, 0). */
  lemma RecordUpdatesOneRow(rows: seq<Row>, name: string, isWin: bool)
    ensures var r := Record(rows, name, isWin);
      var i := IndexOfName(rows, name);
      && (i >= 0 ==>
            && |r| == |rows|
            && r[i].name == name && r[i].twitchId == rows[i].twitchId
            && r[i].wins == rows[i].wins + (if isWin then 1 else 0)
            && r[i].fails == rows[i].fails + (if isWin then 0 else 1)
            && r[i].winrate == WinRate(r[i].wins, r[i].fails)
            && (forall j :: 0 <= j < |rows| && j != i ==> r[j] == rows[j]))
      && (i < 0 ==>
            r == rows + [if isWin then Row(name, 1, 0, 100.0, "") else Row(name, 0, 1, 0.0, "")])
  {
  }

  /** The update keeps one row per name. */
  lemma RecordKeepsNamesUnique(rows: seq<Row>, name: string, isWin: bool)
    requires NamesUnique(rows)
    ensures NamesUnique(Record(rows, name, isWin))
  {
  }

  /** The update keeps every stored winrate in step with its counters. */
  lemma RecordKeepsConsistent(rows: seq<Row>, name: string, isWin: bool)
    requires AllConsistent(rows)
    ensures AllConsistent(Record(rows, name, isWin))
  {
  }

  /** The first row of that name moves, and only rows of other names stay where they were. */
  lemma IndexAfterRecord(rows: seq<Row>, played: string, isWin: bool, name: string)
    ensures var i := IndexOfName(rows, name);
      IndexOfName(Record(rows, played, isWin), name)
        == if i >= 0 then i else if played == name then |rows| else -1
  {
    var r := Record(rows, played, isWin);
    var i := IndexOfName(rows, name);
    var k := IndexOfName(r, name);
    assert |r| >= |rows|;
    assert forall j :: 0 <= j < |rows| ==> r[j].name == rows[j].name;
    if i >= 0 {
      assert r[i].name == name;
      assert k <= i;
    } else {
      if IndexOfName(rows, played) < 0 {
        assert r[|rows|].name == played;
      }
    }
  }

  /** Every update adds exactly one game to the table's total. */
  lemma RecordAddsOneGame(rows: seq<Row>, name: string, isWin: bool)
    ensures Sum(Record(rows, name, isWin), GamesTerm) == Sum(rows, GamesTerm) + 1.0
  {
    var r := Record(rows, name, isWin);
    var i := IndexOfName(rows, name);
    if i >= 0 {
      SumRemove(rows, GamesTerm, i);
      SumRemove(r, GamesTerm, i);
      assert r[..i] + r[i + 1..] == rows[..i] + rows[i + 1..];
    } else {
      assert r[..|rows|] == rows;
    }
  }

  /**
   * A snapshot of a table with no more games than the current one never equals the sorted table
   * after an update: an answer served from such a cache does not reflect the update's own write.
   */
  lemma StaleSnapshot(snapshot: seq<Row>, rows: seq<Row>, name: string, isWin: bool)
    requires Sum(snapshot, GamesTerm) <= Sum(rows, GamesTerm)
    ensures SortLeaderboard(snapshot) != SortLeaderboard(Record(rows, name, isWin))
  {
    var r := Record(rows, name, isWin);
    RecordAddsOneGame(rows, name, isWin);
    if SortLeaderboard(snapshot) == SortLeaderboard(r) {
      SumPermutation(snapshot, r, GamesTerm);
    }
  }

  /** The counters of `name` in a table (zero when it has no row). */
  function WinsOf(rows: seq<Row>, name: string): nat
  {
    var i := IndexOfName(rows, name);
    if i >= 0 then rows[i].wins else 0
  }

  function FailsOf(rows: seq<Row>, name: string): nat
  {
    var i := IndexOfName(rows, name);
    if i >= 0 then rows[i].fails else 0
  }

  /** The table after a series of updates, in order. */
  function Replay(rows: seq<Row>, plays: seq<Play>): seq<Row>
    decreases plays
  {
    if plays == [] then rows else Replay(Record(rows, plays[0].name, plays[0].isWin), plays[1..])
  }

  /** The number of wins, or fails, reported for `name`. */
  function CountPlays(plays: seq<Play>, name: string, isWin: bool): nat
  {
    if plays == [] then 0
    else (if plays[0].name == name && plays[0].isWin == isWin then 1 else 0) + CountPlays(plays[1..], name, isWin)
  }

  /** Over any series of updates, a player's wins and fails grow by exactly the wins and fails reported for it. */
  lemma {:induction false} ReplayCountsPlays(rows: seq<Row>, plays: seq<Play>, name: string)
    ensures WinsOf(Replay(rows, plays), name) == WinsOf(rows, name) + CountPlays(plays, name, true)
    ensures FailsOf(Replay(rows, plays), name) == FailsOf(rows, name) + CountPlays(plays, name, false)
    decreases plays
  {
    if plays != [] {
      var next := Record(rows, plays[0].name, plays[0].isWin);
      IndexAfterRecord(rows, plays[0].name, plays[0].isWin, name);
      ReplayCountsPlays(next, plays[1..], name);
    }
  }

  // ---------------------------------------------------------------------------
  // The manager: table plus snapshot cache
  // ---------------------------------------------------------------------------

  class LeaderboardManager {
    /** The `leaderboard` table, in the order `SELECT * FROM leaderboard` returns it. */
    var rows: seq<Row>
    /** `cache.data`: the last sorted snapshot, absent until the first read. */
    var cacheData: Option<seq<Row>>
    /** `cache.lastUpdate`: when that snapshot was computed, in milliseconds. */
    var lastUpdate: int
    /** The table as it was when the cached snapshot was computed. */
    ghost var cachedFrom: seq<Row>

    /**
     * One row per name; the cache holds the sorted table it was taken from; and that table has
     * no more games than the current one, since games are only ever added.
     */
    ghost predicate Valid()
      reads this
    {
      && NamesUnique(rows)
      && (cacheData.Some? ==> cacheData.value == SortLeaderboard(cachedFrom))
      && Sum(cachedFrom, GamesTerm) <= Sum(rows, GamesTerm)
    }

    constructor (stored: seq<Row>)
      requires NamesUnique(stored)
      ensures Valid()
      ensures rows == stored && cacheData == None && lastUpdate == 0
    {
      rows := stored;
      cacheData := None;
      lastUpdate := 0;
      cachedFrom := stored;
    }

    /** A snapshot exists and is younger than the cache window at `now`. */
    predicate Fresh(now: int)
      reads this
    {
      cacheData.Some? && now - lastUpdate < CacheDuration
    }

    /**
     * What a read through the cache at `now` leaves behind: a fresh snapshot is kept with its
     * timestamp; otherwise the current table is sorted, cached and stamped `now`.
     */
    twostate predicate ReadThrough(now: int)
      reads this
    {
      && cacheData.Some? && cacheData.value == SortLeaderboard(cachedFrom)
      && now - lastUpdate < CacheDuration
      && (old(Fresh(now)) ==>
            cacheData == old(cacheData) && lastUpdate == old(lastUpdate) && cachedFrom == old(cachedFrom))
      && (!old(Fresh(now)) ==> cachedFrom == rows && lastUpdate == now)
    }

    /** `getLeaderboard()` at time `now`. */
    method GetLeaderboard(now: int) returns (data: seq<Row>)
      requires Valid()
      modifies this`cacheData, this`lastUpdate, this`cachedFrom
      ensures Valid()
      ensures ReadThrough(now) && data == cacheData.value
    {
      if cacheData.Some? && now - lastUpdate < CacheDuration {
        return cacheData.value;
      }
      data := SortLeaderboard(rows);
      cacheData := Some(data);
      cachedFrom := rows;
      lastUpdate := now;
    }

    /**
     * `updatePlayer(name, isWin)` at time `now`: write the row, then answer with `getLeaderboard()`.
     * Within the cache window the answer is the old snapshot, which misses the write.
     */
    method UpdatePlayer(name: string, isWin: bool, now: int) returns (data: seq<Row>)
      requires Valid()
      modifies this`rows, this`cacheData, this`lastUpdate, this`cachedFrom
      ensures Valid()
      ensures rows == Record(old(rows), name, isWin)
      ensures ReadThrough(now) && data == cacheData.value
      ensures old(Fresh(now)) ==> data == old(cacheData).value && data != SortLeaderboard(rows)
      ensures !old(Fresh(now)) ==> data == SortLeaderboard(rows)
    {
      WriteResult(name, isWin);
      data := GetLeaderboard(now);
      StaleSnapshot(old(cachedFrom), old(rows), name, isWin);
    }

    /** The table write of `updatePlayer`: bump the player's counter and winrate, or insert the first row. */
    method WriteResult(name: string, isWin: bool)
      requires Valid()
      modifies this`rows
      ensures Valid()
      ensures rows == Record(old(rows), name, isWin)
    {
      var i := IndexOfName(rows, name);
      if i >= 0 {
        var player := rows[i];
        var wins := if isWin then player.wins + 1 else player.wins;
        var fails := if isWin then player.fails else player.fails + 1;
        var winrate := WinRate(wins, fails);
        rows := rows[i := player.(wins := wins, fails := fails, winrate := winrate)];
      } else {
        var wins := if isWin then 1 else 0;
        var fails := if isWin then 0 else 1;
        var winrate := WinRate(wins, fails);
        rows := rows + [Row(name, wins, fails, winrate, "")];
      }
      RecordKeepsNamesUnique(old(rows), name, isWin);
      RecordAddsOneGame(old(rows), name, isWin);
    }

    /** `getPlayer(name)` at time `now`. */
    method GetPlayer(name: string, now: int) returns (p: Standing)
      requires Valid()
      modifies this`cacheData, this`lastUpdate, this`cachedFrom
      ensures Valid() && ReadThrough(now)
      ensures p == PlayerStanding(cacheData.value, name)
    {
      var data := GetLeaderboard(now);
      var index := IndexOfName(data, name);
      if index == -1 {
        return NeverPlayed;
      }
      var player := data[index];
      p := Ranked(index + 1, |data|, player.wins, player.fails, player.winrate);
    }

    /** `calculateLbStats()` at time `now`. */
    method CalculateStats(now: int) returns (s: LbStats)
      requires Valid()
      modifies this`cacheData, this`lastUpdate, this`cachedFrom
      ensures Valid() && ReadThrough(now)
      ensures s == CalculateLbStats(cacheData.value)
      ensures s == CalculateLbStats(cachedFrom)
    {
      var data := GetLeaderboard(now);
      StatsOfSnapshot(cachedFrom);
      s := CalculateLbStats(data);
    }
  }
}
