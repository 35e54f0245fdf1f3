/**
 * Identity reconciliation, shared by the cone endpoint and the duel and cone reward handlers: a
 * login without a leaderboard row takes over the rows of its Twitch id (a renamed account) in both
 * tables, or gets a fresh zeroed leaderboard row.
 */
module Identity {
  import opened Wrappers
  import opened Leaderboard
  import opened Skins
  import opened Sums

  /** The number of elements of `s` satisfying `p`. */
  function Count<T>(s: seq<T>, p: T -> bool): nat
  {
    if s == [] then 0 else (if p(s[0]) then 1 else 0) + Count(s[1..], p)
  }

  lemma {:induction false} CountPositive<T>(s: seq<T>, p: T -> bool)
    ensures Count(s, p) >= 1 <==> exists i :: 0 <= i < |s| && p(s[i])
  {
    if s != [] {
      CountPositive(s[1..], p);
      if exists i :: 0 <= i < |s| && p(s[i]) {
        var i :| 0 <= i < |s| && p(s[i]);
        if i > 0 {
          assert p(s[1..][i - 1]);
        }
      }
      if exists i :: 0 <= i < |s[1..]| && p(s[1..][i]) {
        var i :| 0 <= i < |s[1..]| && p(s[1..][i]);
        assert p(s[i + 1]);
      }
    }
  }

  /** At least two elements satisfy `p` exactly when two distinct positions do. */
  lemma {:induction false} CountAtLeastTwo<T>(s: seq<T>, p: T -> bool)
    ensures Count(s, p) >= 2 <==> exists i, j :: 0 <= i < j < |s| && p(s[i]) && p(s[j])
  {
    if s != [] {
      var rest := s[1..];
      CountAtLeastTwo(rest, p);
      CountPositive(rest, p);
      if Count(s, p) >= 2 {
        if p(s[0]) {
          var j :| 0 <= j < |rest| && p(rest[j]);
          assert p(s[j + 1]);
        } else {
          var i, j :| 0 <= i < j < |rest| && p(rest[i]) && p(rest[j]);
          assert p(s[i + 1]) && p(s[j + 1]);
        }
      }
      if exists i, j :: 0 <= i < j < |s| && p(s[i]) && p(s[j]) {
        var i, j :| 0 <= i < j < |s| && p(s[i]) && p(s[j]);
        assert p(rest[j - 1]);
        if i > 0 {
          assert p(rest[i - 1]);
        }
      }
    }
  }

  // ---------------------------------------------------------------------------
  // The two UPDATE statements
  // ---------------------------------------------------------------------------

  /** `UPDATE leaderboard SET name = ? WHERE twitchid = ?`, before the primary-key check. */
  function RenamePlayers(rows: seq<Row>, id: string, name: string): seq<Row>
  {
    seq(|rows|, i requires 0 <= i < |rows| => if rows[i].twitchId == id then rows[i].(name := name) else rows[i])
  }

  /** `UPDATE user_skins SET name = ? WHERE twitchid = ?`, before the primary-key check. */
  function RenameUsers(users: seq<UserSkins>, id: string, name: string): seq<UserSkins>
  {
    seq(|users|, i requires 0 <= i < |users| => if users[i].twitchId == id then users[i].(name := name) else users[i])
  }

  /** The first leaderboard row with that Twitch id (`SELECT * FROM leaderboard WHERE twitchid = ?`), or -1. */
  function IndexOfTwitchId(rows: seq<Row>, id: string): (i: int)
    ensures -1 <= i < |rows|
    ensures i == -1 <==> forall j :: 0 <= j < |rows| ==> rows[j].twitchId != id
    ensures i >= 0 ==> rows[i].twitchId == id && forall j :: 0 <= j < i ==> rows[j].twitchId != id
  {
    if rows == [] then -1
    else if rows[0].twitchId == id then 0
    else
      var k := IndexOfTwitchId(rows[1..], id);
      if k == -1 then -1 else k + 1
  }

  /**
   * A leaderboard rename fails on the primary key exactly when two rows end up named `name`: when
   * more than one row has the id or already has the name.
   */
  lemma PlayerRenameConflict(rows: seq<Row>, id: string, name: string)
    requires NamesUnique(rows)
    ensures NamesUnique(RenamePlayers(rows, id, name))
        <==> Count(rows, (r: Row) => r.twitchId == id || r.name == name) <= 1
  {
    var claims := (r: Row) => r.twitchId == id || r.name == name;
    var renamed := RenamePlayers(rows, id, name);
    CountAtLeastTwo(rows, claims);
    assert forall i :: 0 <= i < |rows| ==> renamed[i].name == if claims(rows[i]) then name else rows[i].name;
    if Count(rows, claims) >= 2 {
      var i, j :| 0 <= i < j < |rows| && claims(rows[i]) && claims(rows[j]);
      assert renamed[i].name == renamed[j].name;
    }
  }

  /** The same for the `user_skins` rename. */
  lemma UserRenameConflict(users: seq<UserSkins>, id: string, name: string)
    requires UserNamesUnique(users)
    ensures UserNamesUnique(RenameUsers(users, id, name))
        <==> Count(users, (u: UserSkins) => u.twitchId == id || u.name == name) <= 1
  {
    var claims := (u: UserSkins) => u.twitchId == id || u.name == name;
    var renamed := RenameUsers(users, id, name);
    CountAtLeastTwo(users, claims);
    assert forall i :: 0 <= i < |users| ==> renamed[i].name == if claims(users[i]) then name else users[i].name;
    if Count(users, claims) >= 2 {
      var i, j :| 0 <= i < j < |users| && claims(users[i]) && claims(users[j]);
      assert renamed[i].name == renamed[j].name;
    }
  }

  /**
   * A successful rename of a login with no row moves the one row of the id to the new name with
   * its counters and stored winrate, and leaves every other row as it was.
   */
  lemma RenameCarriesStats(rows: seq<Row>, id: string, name: string)
    requires NamesUnique(rows)
    requires IndexOfName(rows, name) < 0
    requires IndexOfTwitchId(rows, id) >= 0
    requires NamesUnique(RenamePlayers(rows, id, name))
    ensures var j := IndexOfTwitchId(rows, id);
      var renamed := RenamePlayers(rows, id, name);
      && |renamed| == |rows|
      && IndexOfName(renamed, name) == j
      && renamed[j] == rows[j].(name := name)
      && (forall k :: 0 <= k < |rows| && k != j ==> renamed[k] == rows[k])
  {
    var j := IndexOfTwitchId(rows, id);
    var renamed := RenamePlayers(rows, id, name);
    var claims := (r: Row) => r.twitchId == id || r.name == name;
    PlayerRenameConflict(rows, id, name);
    CountAtLeastTwo(rows, claims);
    assert renamed[j].name == name;
  }

  // ---------------------------------------------------------------------------
  // ensurePlayer
  // ---------------------------------------------------------------------------

  /** How reconciliation ended. */
  datatype Outcome =
    | Known                // the login already has a leaderboard row
    | NoTwitchId           // the Twitch lookup gave nothing: 'Twitch ID not found for the given name.'
    | Renamed              // both tables renamed from the id's old login
    | Inserted             // a zeroed leaderboard row was added
    | LeaderboardConflict  // the leaderboard rename hit the primary key; nothing was written
    | SkinsConflict        // the leaderboard was renamed, then the user_skins rename hit the primary key

  datatype Reconciliation = Reconciliation(outcome: Outcome, rows: seq<Row>, users: seq<UserSkins>)

  /** The tables after reconciling `name`, whose Twitch lookup returned `twitchId`. */
  function Reconcile(rows: seq<Row>, users: seq<UserSkins>, name: string, twitchId: Option<string>): Reconciliation
  {
    if IndexOfName(rows, name) >= 0 then Reconciliation(Known, rows, users)
    else if twitchId.None? || twitchId.value == "" then Reconciliation(NoTwitchId, rows, users)
    else
      var id := twitchId.value;
      if IndexOfTwitchId(rows, id) >= 0 then
        var renamed := RenamePlayers(rows, id, name);
        if !NamesUnique(renamed) then Reconciliation(LeaderboardConflict, rows, users)
        else
          var renamedUsers := RenameUsers(users, id, name);
          if !UserNamesUnique(renamedUsers) then Reconciliation(SkinsConflict, renamed, users)
          else Reconciliation(Renamed, renamed, renamedUsers)
      else Reconciliation(Inserted, rows + [Row(name, 0, 0, 0.0, id)], users)
  }

  /**
   * Reconciliation keeps one row per name in both tables; afterwards the login has a leaderboard
   * row exactly when the outcome is not an early exit or a leaderboard conflict, and those write nothing.
   */
  lemma ReconcileEstablishesPlayer(rows: seq<Row>, users: seq<UserSkins>, name: string, twitchId: Option<string>)
    requires NamesUnique(rows) && UserNamesUnique(users)
    ensures var r := Reconcile(rows, users, name, twitchId);
      && NamesUnique(r.rows) && UserNamesUnique(r.users)
      && (IndexOfName(r.rows, name) >= 0 <==> r.outcome !in {NoTwitchId, LeaderboardConflict})
      && (r.outcome in {Known, NoTwitchId, LeaderboardConflict} ==> r.rows == rows && r.users == users)
      && (r.outcome == Inserted ==>
            r.rows == rows + [Row(name, 0, 0, 0.0, twitchId.value)] && r.users == users)
  {
    var r := Reconcile(rows, users, name, twitchId);
    if r.outcome == Inserted {
      assert r.rows[|rows|].name == name;
    } else if r.outcome in {Renamed, SkinsConflict} {
      RenameCarriesStats(rows, twitchId.value, name);
    }
  }

  /** Renaming rows moves no game: the total number of games played is unchanged. */
  lemma {:induction false} RenameKeepsGames(rows: seq<Row>, id: string, name: string)
    ensures Sum(RenamePlayers(rows, id, name), GamesTerm) == Sum(rows, GamesTerm)
  {
    if rows != [] {
      var n := |rows| - 1;
      var renamed := RenamePlayers(rows, id, name);
      assert renamed[..n] == RenamePlayers(rows[..n], id, name);
      RenameKeepsGames(rows[..n], id, name);
      assert GamesTerm(renamed[n]) == GamesTerm(rows[n]);
    }
  }

  /**
   * Reconciliation never changes how many games the leaderboard holds: a rename keeps every
   * row's counters and an inserted row has none.
   */
  lemma ReconcileKeepsGames(rows: seq<Row>, users: seq<UserSkins>, name: string, twitchId: Option<string>)
    ensures Sum(Reconcile(rows, users, name, twitchId).rows, GamesTerm) == Sum(rows, GamesTerm)
  {
    var r := Reconcile(rows, users, name, twitchId);
    if r.outcome in {Renamed, SkinsConflict} {
      RenameKeepsGames(rows, twitchId.value, name);
    } else if r.outcome == Inserted {
      assert r.rows[..|rows|] == rows;
    }
  }

  /** Once reconciled, a login is known: reconciling it again, with any lookup result, changes nothing. */
  lemma ReconcileSettles(rows: seq<Row>, users: seq<UserSkins>, name: string, twitchId: Option<string>, again: Option<string>)
    requires NamesUnique(rows) && UserNamesUnique(users)
    requires Reconcile(rows, users, name, twitchId).outcome !in {NoTwitchId, LeaderboardConflict}
    ensures var r := Reconcile(rows, users, name, twitchId);
      Reconcile(r.rows, r.users, name, again) == Reconciliation(Known, r.rows, r.users)
  {
    ReconcileEstablishesPlayer(rows, users, name, twitchId);
  }

  /**
   * The reconciliation block (the cone endpoint and the duel and cone reward handlers), with
   * `twitchId` what `getTwitchId(name)` returned. The UPDATE statements abort on a primary-key
   * conflict; there is no transaction around the two of them.
   */
  method EnsurePlayer(lb: LeaderboardManager, skins: SkinsManager, name: string, twitchId: Option<string>)
    returns (outcome: Outcome)
    requires lb.Valid() && skins.Valid()
    modifies lb`rows, skins`users
    ensures Reconciliation(outcome, lb.rows, skins.users) == Reconcile(old(lb.rows), old(skins.users), name, twitchId)
    ensures lb.Valid() && skins.Valid()
  {
    var player := IndexOfName(lb.rows, name);
    if player >= 0 {
      return Known;
    }
    if twitchId.None? || twitchId.value == "" {
      return NoTwitchId;
    }
    outcome := AdoptLogin(lb, skins, name, twitchId.value);
  }

  /** The writes of the block for a login with no row and a non-empty Twitch id: rename or insert. */
  method AdoptLogin(lb: LeaderboardManager, skins: SkinsManager, name: string, id: string)
    returns (outcome: Outcome)
    requires lb.Valid() && skins.Valid()
    requires IndexOfName(lb.rows, name) < 0 && id != ""
    modifies lb`rows, skins`users
    ensures Reconciliation(outcome, lb.rows, skins.users) == Reconcile(old(lb.rows), old(skins.users), name, Some(id))
    ensures lb.Valid() && skins.Valid()
  {
    ReconcileEstablishesPlayer(lb.rows, skins.users, name, Some(id));
    ReconcileKeepsGames(lb.rows, skins.users, name, Some(id));
    var twidPlayer := IndexOfTwitchId(lb.rows, id);
    if twidPlayer >= 0 {
      var renamed := RenamePlayers(lb.rows, id, name);
      if !NamesUnique(renamed) {
        return LeaderboardConflict;
      }
      lb.rows := renamed;
      var renamedUsers := RenameUsers(skins.users, id, name);
      if !UserNamesUnique(renamedUsers) {
        return SkinsConflict;
      }
      skins.users := renamedUsers;
      return Renamed;
    }
    lb.rows := lb.rows + [Row(name, 0, 0, 0.0, id)];
    return Inserted;
  }
}
