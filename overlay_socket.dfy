/**
 * The per-connection tracker of the overlay socket: it remembers the current top player and
 * announces a new one (gold skin and celebration) whenever a win or fail changes who leads.
 */
module OverlaySocket {
  import opened Leaderboard

  /** The JavaScript value held in `topPlayer`: `null`, `undefined` or a name. */
  datatype TopValue = Null | Undefined | Named(name: string)

  /** On connection: `data[0]?.name || null` (an empty board or an empty name gives `null`). */
  function ConnectTop(data: seq<Row>): TopValue
  {
    if data != [] && data[0].name != "" then Named(data[0].name) else Null
  }

  /** After an update: `result[0]?.name` (an empty board gives `undefined`). */
  function UpdateTop(result: seq<Row>): TopValue
  {
    if result == [] then Undefined else Named(result[0].name)
  }

  /**
   * The two readings of the leader agree exactly when the board has a first row with a non-empty
   * name; an empty board is `null` at connection but `undefined` after an update, and a blank first
   * name is `null` at connection but `""` after an update.
   */
  lemma ConnectMatchesUpdate(data: seq<Row>)
    ensures ConnectTop(data) == UpdateTop(data) <==> data != [] && data[0].name != ""
    ensures data == [] ==> ConnectTop(data) == Null && UpdateTop(data) == Undefined
    ensures data != [] && data[0].name == "" ==> ConnectTop(data) == Null && UpdateTop(data) == Named("")
  {
  }

  /** What the connection emits: to this socket, or `io.emit` to every socket. */
  datatype Event =
    | RefreshLb(data: seq<Row>)
    | GoldSkin(top: TopValue)
    | NewGoldCelebration(top: TopValue)
    | BroadcastRefreshLb(data: seq<Row>)

  /** The events of one update whose answer is `result`, when the tracker held `previous`. */
  function UpdateEvents(previous: TopValue, result: seq<Row>): seq<Event>
  {
    var top := UpdateTop(result);
    (if top != previous then [GoldSkin(top), NewGoldCelebration(top)] else []) + [BroadcastRefreshLb(result)]
  }

  /**
   * An update celebrates exactly when the leader's value differs from the tracked one (`!==`),
   * and always ends by broadcasting the board it got.
   */
  lemma CelebratesIffChanged(previous: TopValue, result: seq<Row>)
    ensures var events := UpdateEvents(previous, result);
      && events[|events| - 1] == BroadcastRefreshLb(result)
      && (NewGoldCelebration(UpdateTop(result)) in events <==> UpdateTop(result) != previous)
      && (UpdateTop(result) != previous <==> |events| == 3)
      && (forall e :: e in events && e.NewGoldCelebration? ==> e.top == UpdateTop(result))
  {
  }

  /** Two updates in a row with the same leader celebrate only the first time. */
  lemma SameLeaderStaysQuiet(first: seq<Row>, second: seq<Row>)
    requires first != [] && second != [] && first[0].name == second[0].name
    ensures UpdateEvents(UpdateTop(first), second) == [BroadcastRefreshLb(second)]
  {
  }

  /**
   * A connection made while the board was empty celebrates `undefined` on its first update if the
   * answer is still empty (the cached empty snapshot within the cache window), as `null !== undefined`.
   */
  lemma EmptyBoardCelebratesNobody()
    ensures UpdateEvents(ConnectTop([]), [])
         == [GoldSkin(Undefined), NewGoldCelebration(Undefined), BroadcastRefreshLb([])]
  {
  }

  class SocketSession {
    /** The connection's `topPlayer` variable. */
    var topPlayer: TopValue
    /** Everything the connection has emitted, in order. */
    var sent: seq<Event>

    /** The connection handler at time `now`: read the board, remember its leader, send both. */
    constructor Connect(lb: LeaderboardManager, now: int)
      requires lb.Valid()
      modifies lb`cacheData, lb`lastUpdate, lb`cachedFrom
      ensures lb.Valid() && lb.ReadThrough(now)
      ensures topPlayer == ConnectTop(lb.cacheData.value)
      ensures sent == [RefreshLb(lb.cacheData.value), GoldSkin(topPlayer)]
    {
      var data := lb.GetLeaderboard(now);
      topPlayer := if data != [] && data[0].name != "" then Named(data[0].name) else Null;
      sent := [RefreshLb(data), GoldSkin(topPlayer)];
    }

    /** A `win` (`isWin`) or `fail` event for `name` at time `now`. */
    method OnResult(lb: LeaderboardManager, name: string, isWin: bool, now: int)
      requires lb.Valid()
      modifies this`topPlayer, this`sent, lb`rows, lb`cacheData, lb`lastUpdate, lb`cachedFrom
      ensures lb.Valid() && lb.ReadThrough(now)
      ensures lb.rows == Record(old(lb.rows), name, isWin)
      ensures old(lb.Fresh(now)) ==> lb.cacheData.value != SortLeaderboard(lb.rows)
      ensures topPlayer == UpdateTop(lb.cacheData.value)
      ensures sent == old(sent) + UpdateEvents(old(topPlayer), lb.cacheData.value)
    {
      var result := lb.UpdatePlayer(name, isWin, now);
      Track(result);
    }

    /** Compares the answer's leader with the tracked one (`!==`), celebrates a change, broadcasts. */
    method Track(result: seq<Row>)
      modifies this`topPlayer, this`sent
      ensures topPlayer == UpdateTop(result)
      ensures sent == old(sent) + UpdateEvents(old(topPlayer), result)
    {
      var newTopPlayer := if result == [] then Undefined else Named(result[0].name);
      if newTopPlayer != topPlayer {
        topPlayer := newTopPlayer;
        sent := sent + [GoldSkin(topPlayer), NewGoldCelebration(topPlayer)];
      }
      sent := sent + [BroadcastRefreshLb(result)];
    }
  }
}
