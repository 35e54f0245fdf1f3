# coneflip overlay: leaderboard, skins and identity core in Dafny

This project models the stateful core of the coneflip stream overlay (`app.js`). Viewers flip a
cone that wins or fails. A SQLite-backed leaderboard ranks them. They own and equip cosmetic
skins, some of which come from a weighted random unboxing.

The model covers:

- **`LeaderboardManager`**:
  - the `leaderboard` table (one row per name) and its comparator sort;
  - the five-second snapshot cache behind `getLeaderboard`;
  - the win/fail update `updatePlayer`, which writes and then answers through the cache;
  - the rank lookup `getPlayer` and the aggregate fold `calculateLbStats`.
- **`SkinsManager`**:
  - the catalog built from the skins configuration (`INSERT OR REPLACE`: the last entry with a name wins, a missing weight becomes 0) and `isValidSkin`;
  - grant-and-equip over the comma-joined inventory string (`setSkin`);
  - the weighted draw with its running `currentWeight` (`setRandomSkin`);
  - the unboxable pool and the odds listing.
- **The skin commands**: `!myskins` adds the `subcone` and `gold` entitlements and the unconditional `pride`. `!setskin` equips only, and writes nothing but the `skin` column.
- **Identity reconciliation**: the block shared by the cone endpoint and the duel and cone reward handlers. A login without a row either takes over its Twitch id's rows in both tables or gets a zeroed leaderboard row. An `UPDATE … SET name` that would give two rows the same name fails on the primary key. The two renames are not wrapped in a transaction.
- **The per-socket top-player tracker**: it keeps JavaScript's `null` and `undefined` apart. A connection made on an empty board starts at `null`, so a later empty answer (`undefined`) announces a "new" leader (`EmptyBoardCelebratesNobody`).

External inputs are parameters:

- the clock (`now`, milliseconds);
- the scaled random number `Math.random() * totalWeight` (`random`, constrained by `ScaledRange`);
- the subscription tier (`subTier`);
- the Twitch-id lookup (`twitchId: Option<string>`).

Tables are sequences in row order, because `SELECT *` order feeds the stable sort and the draw's walk. Unique names are class invariants (`Valid`).

`updatePlayer` does not clear the cache before it reads the leaderboard back. Inside the cache window it therefore returns the old snapshot, which never reflects its own write, however many updates came before (`UpdatePlayer`, through the invariant that the cached table has no more games than the current one). The model follows the code here.

## Model

| member | source | states |
|---|---|---|
| Text.Split | app.js:265 | `split(',')` always yields at least one field, and no field contains a comma |
| Text.Join | app.js:718 | `join(',')`; `JoinSplit` and `SplitJoin` state that it inverts `split(',')` |
| Text.JoinSplit | app.js:715-719 | joining the fields of a split restores the inventory string exactly |
| Text.SplitJoin | app.js:715-719 | splitting a join of comma-free fields gives the fields back |
| Text.SplitSnoc | app.js:717-719 | appending `,skin` to an inventory appends exactly one field |
| Text.TrimStartRemovesPrefix | app.js:288 | `trim` drops only leading whitespace and stops at the first kept character |
| Text.TrimEndRemovesSuffix | app.js:288 | `trim` drops only trailing whitespace and stops at the last kept character |
| Text.Trim | app.js:288 | `trim()`; `TrimStartRemovesPrefix`, `TrimEndRemovesSuffix` and `TrimIdempotent` state what it removes |
| Text.TrimIdempotent | app.js:288 | trimming an already trimmed skin name changes nothing |
| Text.PrecedesIrreflexive | app.js:552 | the name order never puts a name before itself |
| Text.PrecedesTransitive | app.js:552 | the name order is transitive |
| Text.PrecedesTrichotomy | app.js:552 | two distinct names are ordered exactly one way |
| Text.LocaleCompare | app.js:552 | the comparison is zero iff the names are equal, and its sign gives the order |
| Sums.PrefixSumStep | app.js:735 | the running weight after skin k is the running weight before it plus its weight |
| Sums.SumPermutation | app.js:558-570 | a sum over rows does not depend on their order |
| StableSort.SortBy | app.js:548 | the sorted copy is a permutation of the input |
| StableSort.SortBySorted | app.js:548 | for a strict weak order, no element of the result precedes its left neighbour |
| StableSort.SortByStable | app.js:548 | elements the comparator calls equal keep their input order |
| StableSort.SortedEverywhere | app.js:548 | sortedness between neighbours extends to every pair of positions |
| Leaderboard.Percent | app.js:562 | `(wins / games) * 100` lies in [0, 100]: 100 for all wins, 0 for none |
| Leaderboard.Round2 | app.js:591 | `toFixed(2)` read back moves a value by at most half a hundredth, keeps it in [0, 100] and keeps two-decimal values |
| Leaderboard.WinRate | app.js:591 | a stored winrate lies in [0, 100]: 100 with no fails, 0 with no wins |
| Leaderboard.Compare | app.js:548-553 | the comparator's sign; `TiedRows` states when it is 0 and `LeaderboardOrder` what its sign means for the sorted board |
| Leaderboard.RanksBefore | app.js:548-553 | `Compare(a, b) < 0`; `RanksBeforeIsStrictWeakOrder` states it is a strict weak order |
| Leaderboard.RanksBeforeIsStrictWeakOrder | app.js:548-553 | the comparator is a strict weak order, so the stable sort's result is well defined |
| Leaderboard.SortLeaderboard | app.js:547-554 | the leaderboard is a sorted permutation of the table; the argument is a value and is not changed |
| Leaderboard.LeaderboardOrder | app.js:549-552 | wins never rise down the board; among equal positive wins the winrate does not rise; among zero-win rows fails do not fall, then names ascend |
| Leaderboard.TiedRows | app.js:549-552 | the comparator returns 0 iff wins are equal and, then, winrates are equal (positive wins) or fails and names are equal (zero wins) |
| Leaderboard.LeaderboardStable | app.js:548-553 | rows with equal positive wins and equal winrate keep their table order |
| Leaderboard.IndexOfName | app.js:577 | `findIndex` gives the first row with the name, or -1 iff there is none |
| Leaderboard.PlayerStanding | app.js:575-582 | an absent name gives `hasPlayed: false`; otherwise the rank is (i+1)/n for the first row i with that name, with its wins, fails and winrate, even when it has no games |
| Leaderboard.RankReflectsWins | app.js:575-582 | in the sorted board nobody ranked above a player has fewer wins |
| Leaderboard.Tally | app.js:558-570 | the player count is at most the row count, and the rate total lies in [0, 100 × count] |
| Leaderboard.CalculateLbStats | app.js:556-572 | the average winrate lies in [0, 100] and is 0 when no row has played |
| Leaderboard.TallyIsSums | app.js:558-570 | the totals are sums over all rows: rows with a game are counted, games are summed, and per-row rates come from the counters |
| Leaderboard.StatsOfSnapshot | app.js:556-572 | the statistics of the sorted snapshot equal those of the unsorted table |
| Leaderboard.TallyIgnoresStoredWinrate | app.js:559-562 | the stored `winrate` column never affects the statistics |
| Leaderboard.Record | app.js:584-599 | the table after one update; `RecordUpdatesOneRow`, `RecordKeepsNamesUnique`, `RecordAddsOneGame` and `IndexAfterRecord` state its effect |
| Leaderboard.RecordUpdatesOneRow | app.js:584-599 | an existing row gets exactly one more win or fail and a recomputed winrate, and no other row changes; a new name gets (1, 0, 100) or (0, 1, 0) with Twitch id `''` |
| Leaderboard.RecordKeepsNamesUnique | app.js:584-599 | the update keeps one row per name |
| Leaderboard.RecordKeepsConsistent | app.js:584-599 | the update keeps every stored winrate in step with its counters |
| Leaderboard.IndexAfterRecord | app.js:584-599 | an update never moves a name's row; only a new name gets a row, at the end |
| Leaderboard.ReplayCountsPlays | app.js:584-599 | over any series of updates, a player's wins and fails grow by exactly the wins and fails reported for them |
| Leaderboard.RecordAddsOneGame | app.js:584-599 | every update adds exactly one game to the table |
| Leaderboard.StaleSnapshot | app.js:600 | a snapshot of a table with no more games than the current one never equals the sorted table after an update |
| Leaderboard.LeaderboardManager.constructor | app.js:513-516 | the manager starts with the stored table, no cached data and `lastUpdate` 0 |
| Leaderboard.LeaderboardManager.ReadThrough | app.js:533-543 | a read through the cache keeps a fresh snapshot, its timestamp and its source table; otherwise it caches the sorted current table and stamps it `now` |
| Leaderboard.LeaderboardManager.GetLeaderboard | app.js:532-545 | the answer is the cached snapshot after `ReadThrough`: within 5000 ms the old snapshot with nothing changed, otherwise the freshly sorted table with `lastUpdate` set to `now` |
| Leaderboard.LeaderboardManager.UpdatePlayer | app.js:584-601 | the table becomes the recorded update and the cache moves as `ReadThrough` says; when fresh the answer is the old snapshot and is never the sorted new table, otherwise it is the sorted new table |
| Leaderboard.LeaderboardManager.WriteResult | app.js:585-599 | the row write of an update, keeping one row per name and the cached table at no more games than the table |
| Leaderboard.LeaderboardManager.GetPlayer | app.js:575-582 | the standing of the name in the snapshot, with the cache moved as `ReadThrough` says |
| Leaderboard.LeaderboardManager.CalculateStats | app.js:556-572 | the statistics of the snapshot, which equal those of the table it was taken from, with the cache moved as `ReadThrough` says |
| Skins.FindSkin | app.js:696 | a lookup finds a catalog row with that name, and finds nothing iff no row has the name |
| Skins.Loaded | app.js:685-697 | the catalog a load leaves; `LoadedIsLastOccurrences`, `LoadedLastWins` and `LoadedNamesUnique` state its contents |
| Skins.LoadedIsLastOccurrences | app.js:685-693 | loading keeps, for each name, only its last configuration entry, in that entry's position |
| Skins.LoadedLastWins | app.js:686-696 | for every name the catalog holds exactly the last configuration entry with it, a missing weight read as 0 |
| Skins.ValidIffConfigured | app.js:705-707 | after a load a skin is valid iff some configuration entry names it |
| Skins.IsValidSkin | app.js:705-707 | a name is valid iff a catalog row has it; `ValidIffConfigured` ties this to the configuration |
| Skins.LoadedNamesUnique | app.js:693-697 | the loaded catalog has one row per name |
| Skins.WithoutMembers | app.js:686 | `INSERT OR REPLACE` removes exactly the rows with the inserted name |
| Skins.WithoutKeepsUnique | app.js:686 | removing the replaced row keeps one row per name |
| Skins.UnboxPool | app.js:763-765 | the `canUnbox` filter; `UnboxPoolMembers` and `UnboxPoolNamesUnique` state its contents |
| Skins.TotalWeight | app.js:731 | the sum of the pool's weights; `SharesSum` and `OddsSumToHundred` use it as the whole |
| Skins.UnboxPoolMembers | app.js:763-764 | the unboxable pool holds exactly the catalog rows with `canUnbox` |
| Skins.UnboxPoolNamesUnique | app.js:763-764 | the pool has one row per name when the catalog does |
| Skins.PickFrom | app.js:734-736 | the walk stops at the first skin whose running weight is at least the draw, and yields -1 iff none is |
| Skins.Pick | app.js:734-736 | the walk's answer is -1 or an index into the pool |
| Skins.ReachMonotone | app.js:735 | with non-negative weights the running weight never decreases |
| Skins.PickInInterval | app.js:732-736 | skin k is drawn iff the draw lies in (running weight before k, running weight through k], whose length is the weight of k |
| Skins.PickAlwaysLands | app.js:731-736 | with non-negative weights and a non-empty pool, every possible draw lands on a skin |
| Skins.ScaledRangeExact | app.js:733 | `ScaledRange` is exactly the set of values `Math.random() * totalWeight` can take |
| Skins.PickWeighted | app.js:732-751 | the loop with its running `currentWeight` returns the first skin whose running weight reaches the draw, or -1 |
| Skins.Share | app.js:737 | the odds are a number iff the total weight is not zero, and lie in [0, 100] when the weight is between 0 and the total |
| Skins.HeavierIsStrictWeakOrder | app.js:758 | the weight comparator is a strict weak order |
| Skins.Heavier | app.js:758 | the weight comparator; `HeavierIsStrictWeakOrder` states it is a strict weak order |
| Skins.OddsLines | app.js:759 | each skin with its share of the total; `SharesSum` states what the shares add up to |
| Skins.CalculateSkinOdds | app.js:754-760 | the odds listing; `OddsListing`, `OddsSumToHundred` and `OddsNamesDistinct` state its contents |
| Skins.OddsListing | app.js:754-760 | the listing holds every unboxable skin once with its share, by non-increasing weight, with equal weights in catalog order |
| Skins.SharesSum | app.js:756-759 | the listed shares add up to the pool's weight over the total |
| Skins.OddsSumToHundred | app.js:754-760 | when the total weight is not zero, the listed percentages add up to 100 |
| Skins.PermutationKeepsNamesUnique | app.js:758 | reordering the pool keeps one row per name |
| Skins.OddsNamesDistinct | app.js:754-760 | no skin is listed twice |
| Skins.Entries | app.js:715 | the stored inventory split at commas, or none when it is empty; `GrantEntries` states how a grant changes it |
| Skins.AddToInventory | app.js:715-719 | the inventory string after a grant; `GrantEntries` and `GrantIdempotent` state its effect |
| Skins.GrantEntries | app.js:715-719 | granting keeps earlier entries in order and appends the skin iff it was absent |
| Skins.GrantIdempotent | app.js:715-719 | granting a skin twice gives the same inventory as granting it once |
| Skins.UnstorableNames | app.js:715-719 | a skin named `"a,b"` is split into two entries and appended again by a second grant; the empty name leaves an empty inventory |
| Skins.TrimmedEntriesMembers | app.js:740 | a skin is among the trimmed entries iff some stored entry trims to it, and there are as many trimmed entries as entries |
| Skins.NewDrawGrowsInventoryByOne | app.js:740-746 | a drawn skin the player does not own grows the owned list by exactly that skin |
| Skins.IndexOfUser | app.js:713-714 | the lookup finds the first `user_skins` row with that name, or -1 iff there is none |
| Skins.Grant | app.js:709-727 | the `user_skins` table after `setSkin`; `GrantEquips`, `GrantKeepsNamesUnique` and `GrantTwice` state its effect |
| Skins.GrantEquips | app.js:709-727 | after a grant the player's row selects the skin and owns it; a new row carries the looked-up Twitch id; no other row changes |
| Skins.GrantKeepsNamesUnique | app.js:720-725 | a grant keeps one `user_skins` row per name |
| Skins.GrantTwice | app.js:709-727 | a second identical `setSkin` leaves the table as the first left it |
| Skins.SelectOnlySkin | app.js:312 | the swap write changes only the `skin` column of the player's row and never adds a row |
| Skins.Select | app.js:312 | the table after the swap write; `SelectOnlySkin` states its effect |
| Skins.Owns | app.js:740-742 | `setRandomSkin`'s ownership test; `TrimmedEntriesMembers` states which skins pass it |
| Skins.Draw | app.js:730-736 | a draw is -1 or an index into the unboxable pool |
| Skins.DrawnInCatalog | app.js:730-736 | the drawn skin is a catalog row, so it is a valid skin |
| Skins.DrawLands | app.js:730-751 | with non-negative weights a draw lands iff the pool is not empty |
| Skins.SkinsManager.constructor | app.js:658-659 | the manager starts with an empty catalog and the stored `user_skins` table |
| Skins.SkinsManager.LoadConfiguredSkins | app.js:682-698 | the insertion loop leaves the catalog equal to the loaded configuration, one row per name |
| Skins.SkinsManager.SetSkin | app.js:709-727 | an invalid skin is refused and nothing is written; otherwise the table becomes the grant of the skin |
| Skins.SkinsManager.SelectSkin | app.js:312 | the table becomes the selection of the skin for the player |
| Skins.SkinsManager.SetRandomSkin | app.js:729-752 | no landing: nothing drawn and nothing written; an owned draw: reported with its odds and nothing written; a new draw: granted through `setSkin`. With non-negative weights nothing is drawn iff the pool is empty |
| Commands.Owned | app.js:264 | the owned list of an inventory; `OwnedMembers`, `OwnedAreTrimmed` and `OwnedOfEmpty` state its contents |
| Commands.OwnedMembers | app.js:295 | a skin is owned iff it is non-blank and is the trimmed form of some comma-separated entry |
| Commands.OwnedAreTrimmed | app.js:295 | owned entries are non-blank and already trimmed |
| Commands.OwnedOfEmpty | app.js:294-296 | an empty inventory owns nothing |
| Commands.WithEntitlements | app.js:266-273 | the owned list with the entitlements pushed; `EntitlementsExact` states its contents |
| Commands.InventoryListing | app.js:264-276 | the `!myskins` listing; `ListingCounts` states its counts |
| Commands.MaySwapTo | app.js:311 | the swap test; `SwapAllowedIffListed` relates it to the listing |
| Commands.SwapAllowed | app.js:287-311 | the swap test for a player's row; `CommandSkinsSwap` equips exactly when it holds |
| Commands.EntitlementsExact | app.js:300-309 | the entitlements keep the owned list as a prefix, add `subcone` iff subscribed and `gold` iff top, never adding a second copy |
| Commands.ListingCounts | app.js:265-275 | the listing always holds one more `pride` than the inventory, and `subcone`/`gold` at most once when added |
| Commands.SwapAllowedIffListed | app.js:311 | a swap is allowed iff the skin appears in the inventory listing or is `default` |
| Commands.AddEntitlements | app.js:300-309 | both commands' pushes give the owned list with the entitlements for the subscription and for the leader of the snapshot, with the cache moved as `ReadThrough` says |
| Commands.CommandSkinsInventory | app.js:260-277 | a player without a row gets "no skins" and nothing changes; otherwise the cache moves as `ReadThrough` says and the reply is the entitled listing plus `pride` and the selected skin |
| Commands.CommandSkinsSwap | app.js:287-318 | no row: nothing changes; otherwise the cache moves as `ReadThrough` says, and the trimmed skin is equipped (only the `skin` column) iff it is owned, entitled, `default` or `pride`, and refused with no write otherwise |
| Commands.CheckSwap | app.js:293-311 | for a player with a row, the swap test is `SwapAllowed` on the snapshot, with the cache moved as `ReadThrough` says |
| Commands.ApplySwap | app.js:311-317 | an allowed swap selects the skin and answers "swapped"; a refused one writes nothing |
| Identity.IndexOfTwitchId | app.js:190-191 | the lookup finds the first leaderboard row with the Twitch id, or -1 iff there is none |
| Identity.RenamePlayers | app.js:193-195 | the leaderboard rename before the key check; `PlayerRenameConflict` and `RenameCarriesStats` state its effect |
| Identity.RenameUsers | app.js:196-198 | the `user_skins` rename before the key check; `UserRenameConflict` states when it fails |
| Identity.PlayerRenameConflict | app.js:193-195 | the leaderboard rename keeps names unique iff at most one row has the id or already has the name |
| Identity.UserRenameConflict | app.js:196-198 | the same for the `user_skins` rename |
| Identity.RenameCarriesStats | app.js:190-195 | a successful rename moves the id's one row to the new name with its counters and winrate, and leaves every other row alone |
| Identity.RenameKeepsGames | app.js:193-195 | a rename keeps the table's total number of games |
| Identity.Reconcile | app.js:183-206 | the outcome and tables of the block; `ReconcileEstablishesPlayer`, `ReconcileSettles` and `ReconcileKeepsGames` state its effect |
| Identity.ReconcileKeepsGames | app.js:183-206 | reconciliation never changes the total number of games in the leaderboard |
| Identity.ReconcileEstablishesPlayer | app.js:183-206 | reconciliation keeps both tables keyed by name; the login ends with a row iff there was a Twitch id and no leaderboard conflict; early exits write nothing; the insert adds a zeroed row |
| Identity.ReconcileSettles | app.js:183-185 | once reconciled, a login is known and reconciling it again changes nothing |
| Identity.EnsurePlayer | app.js:183-206 | the block's writes and outcome are exactly those of the reconciliation (the same block recurs at app.js lines 1181-1198 and 1209-1226) |
| Identity.AdoptLogin | app.js:190-205 | for a login with no row and a non-empty Twitch id, the writes and outcome are those of the reconciliation, keeping both tables keyed by name |
| OverlaySocket.ConnectTop | app.js:1278 | the first name, or `null` when it is missing or empty; `ConnectMatchesUpdate` compares it with the update's reading |
| OverlaySocket.UpdateTop | app.js:1284 | the first name, or `undefined` for an empty board; `ConnectMatchesUpdate` compares it with the connection's reading |
| OverlaySocket.ConnectMatchesUpdate | app.js:1278-1284 | the connection's and the update's leader agree iff the board has a first row with a non-empty name; otherwise one is `null` and the other `undefined` or `""` |
| OverlaySocket.UpdateEvents | app.js:1284-1290 | the events of one update; `CelebratesIffChanged` and `SameLeaderStaysQuiet` state when it celebrates |
| OverlaySocket.CelebratesIffChanged | app.js:1285-1290 | gold and celebration events fire iff the leader value changed; the board is always broadcast last |
| OverlaySocket.SameLeaderStaysQuiet | app.js:1284-1290 | two updates with the same leader celebrate only once |
| OverlaySocket.EmptyBoardCelebratesNobody | app.js:1278-1288 | a connection on an empty board celebrates `undefined` at its next empty answer |
| OverlaySocket.SocketSession.Connect | app.js:1274-1280 | the connection reads the board with the cache moved as `ReadThrough` says, tracks its leader, and sends the board and the gold skin |
| OverlaySocket.SocketSession.OnResult | app.js:1281-1296 | a win or fail records the result, moves the cache as `ReadThrough` says (a fresh snapshot never shows the result), tracks the new leader, and sends exactly the update's events |
| OverlaySocket.SocketSession.Track | app.js:1284-1290 | the tracker moves to the answer's leader and appends exactly that answer's events |

## Left out

- HTTP routes, chat dispatch, EventSub, 7TV integration, startup, backups, and `follow.js` and `migrate.js` are I/O with no logic of their own. The `Math.random`, `Date.now`, `isSub` and `getTwitchId` calls are parameters.
- `getUserSkins` is a plain `SELECT *`, which the model has as the `users` field itself.
- Rendering is not modelled: the `toFixed` strings of the average winrate and the odds, and the reply sentences. Replies are datatypes carrying the values shown. `toFixed(2)` of the stored winrate is modelled on exact reals.
- Binary floating point is not modelled: weights, winrates and shares are exact reals.
- `localeCompare` collation is stood in for by code-point order, a strict total order. Locale collation differs: it can return 0 for distinct, canonically equivalent names, and it puts `"a"` before `"B"`, where code points put `"B"` first. So the tie order of zero-win rows with equal fails is not the source's.
- `Math.random() * totalWeight` is taken as the product itself (`random`), constrained to the range that product can have (`ScaledRangeExact`). The model does not reason about the multiplication.
- `availableSkins` is modelled as the table's row order. A JavaScript object enumerates integer-like keys first, so the pool order for skins named like numbers is not captured.
- `isValidSkin` uses `in`, which also accepts inherited keys such as `toString`. That quirk is not captured.
- Database failures are not modelled: the "Failed to read leaderboard data" path, and `user_skins` inventories stored as NULL, which the source's own writes never produce.
- The `unboxSkinAnim` and `skinRefresh` broadcasts are not modelled. Only the socket tracker's own events are recorded.
- Skins.SkinsManager.SetRandomSkin: the draw is stated for the scaled value. A skin with a negative configured weight makes the landing guarantee (`DrawLands`) conditional on non-negative weights.
- Identity.EnsurePlayer: the block runs in three handlers that differ only in what they do afterwards (`addCone`/`addConeDuel` emits and replies). Those emits are not modelled.
- Every operation is modelled as one atomic step. In the source, `setSkin` awaits `getTwitchId` (app.js:722) between its `SELECT` (app.js:714) and its `INSERT` (app.js:723), and reconciliation awaits it (app.js:186) between its `SELECT` (app.js:184) and its `UPDATE`/`INSERT` (app.js:193-204). Two requests for the same new login can interleave there, and the second `INSERT` then fails on the primary key. Interleavings are not modelled.
- Skins.SkinsManager.LoadConfiguredSkins: `DELETE FROM skins` (app.js:685) runs outside the insert transaction. A configuration entry without `visuals` violates `NOT NULL` (app.js:666) and rolls the inserts back, leaving the table empty while `availableSkins` keeps its old contents. `SkinConfig.visuals` is a string here, so such an entry cannot be written down and this failure is not modelled.
- Skins.GrantEntries: requires a skin name without a comma and not empty. `setSkin` accepts such names (`"a,b"`, `""`): the skin is equipped, but the joined inventory splits it apart or drops it, so it never becomes an entry (`UnstorableNames`).
- Skins.GrantIdempotent: requires a comma-free, non-empty skin name, for the same reason as `GrantEntries`.
- Skins.GrantEquips: requires a comma-free, non-empty skin name. With such a name the row selects the skin but does not own it as an entry.
- Skins.GrantTwice: requires a comma-free, non-empty skin name, for the same reason as `GrantEntries`.
- Skins.NewDrawGrowsInventoryByOne: requires a comma-free, non-empty, trimmed skin name. A drawn skin named like `"a,b"` or `""` is never found in the inventory, so `setRandomSkin` reports it as new on every draw, and `!setskin` can never select it by ownership.
