/**
 * The skin chat commands layered on the two engines: `!myskins` (a read-only listing of
 * owned and entitled skins) and `!setskin` (equip a skin the player owns or is entitled to).
 */
module Commands {
  import opened Text
  import opened Leaderboard
  import opened Skins

  /** `s.split(',').map(s => s.trim()).filter(Boolean)`: the owned skins, trimmed, without blanks. */
  function Owned(inventory: string): seq<string>
  {
    NonBlankTrimmed(Split(inventory))
  }

  function NonBlankTrimmed(parts: seq<string>): seq<string>
  {
    if parts == [] then []
    else
      var t := Trim(parts[0]);
      (if t == "" then [] else [t]) + NonBlankTrimmed(parts[1..])
  }

  /** A skin is owned exactly when it is the trimmed form of some comma-separated entry and is not blank. */
  lemma {:induction false} OwnedMembers(parts: seq<string>, s: string)
    ensures s in NonBlankTrimmed(parts) <==> s != "" && exists i :: 0 <= i < |parts| && Trim(parts[i]) == s
  {
    if parts != [] {
      OwnedMembers(parts[1..], s);
      if s != "" && Trim(parts[0]) != s && exists i :: 0 <= i < |parts| && Trim(parts[i]) == s {
        var i :| 0 <= i < |parts| && Trim(parts[i]) == s;
        assert Trim(parts[1..][i - 1]) == s;
      }
      if exists i :: 0 <= i < |parts[1..]| && Trim(parts[1..][i]) == s {
        var i :| 0 <= i < |parts[1..]| && Trim(parts[1..][i]) == s;
        assert Trim(parts[i + 1]) == s;
      }
    }
  }

  /** No owned entry is blank or carries surrounding whitespace. */
  lemma {:induction false} OwnedAreTrimmed(parts: seq<string>)
    ensures forall s :: s in NonBlankTrimmed(parts) ==> s != "" && Trim(s) == s
  {
    if parts != [] {
      OwnedAreTrimmed(parts[1..]);
      TrimIdempotent(parts[0]);
    }
  }

  /** An empty inventory owns nothing, so the swap's guard on it changes nothing. */
  lemma OwnedOfEmpty()
    ensures Owned("") == []
  {
    assert Split("") == [""];
    assert Trim("") == "";
  }

  /** The player is `leaderboard[0].name` of the snapshot. */
  predicate IsTop(data: seq<Row>, name: string)
  {
    data != [] && data[0].name == name
  }

  /** The owned skins with `subcone` pushed for a subscriber and `gold` for the top player, each only when absent. */
  function WithEntitlements(owned: seq<string>, subscribed: bool, top: bool): seq<string>
  {
    var withSub := if subscribed && "subcone" !in owned then owned + ["subcone"] else owned;
    if top && "gold" !in withSub then withSub + ["gold"] else withSub
  }

  /** The list `!myskins` prints: the entitled skins, then `pride` unconditionally. */
  function InventoryListing(owned: seq<string>, subscribed: bool, top: bool): seq<string>
  {
    WithEntitlements(owned, subscribed, top) + ["pride"]
  }

  /** The swap test: an owned or entitled skin, or one of the two skins everyone may wear. */
  predicate MaySwapTo(entitled: seq<string>, skin: string)
  {
    skin in entitled || skin == "default" || skin == "pride"
  }

  /**
   * The entitlements add `subcone` exactly for a subscriber and `gold` exactly for the top player,
   * never a second copy, and keep every owned entry and its order.
   */
  lemma EntitlementsExact(owned: seq<string>, subscribed: bool, top: bool, s: string)
    ensures var e := WithEntitlements(owned, subscribed, top);
      && e[..|owned|] == owned
      && (s in e <==> s in owned || (subscribed && s == "subcone") || (top && s == "gold"))
      && multiset(e)[s] == if (s == "subcone" && subscribed) || (s == "gold" && top) then
                              (if s in owned then multiset(owned)[s] else 1)
                            else multiset(owned)[s]
  {
    var withSub := if subscribed && "subcone" !in owned then owned + ["subcone"] else owned;
    assert withSub[..|owned|] == owned;
    var e := WithEntitlements(owned, subscribed, top);
    assert e[..|withSub|] == withSub;
    if s in owned {
      assert multiset(owned)[s] > 0;
    }
  }

  /** `pride` is always listed, once more than the inventory holds it; nothing else changes count. */
  lemma ListingCounts(owned: seq<string>, subscribed: bool, top: bool)
    ensures var listing := InventoryListing(owned, subscribed, top);
      var e := WithEntitlements(owned, subscribed, top);
      && multiset(listing)["pride"] == multiset(owned)["pride"] + 1
      && multiset(listing)["subcone"] == (if subscribed && "subcone" !in owned then 1 else multiset(owned)["subcone"])
      && multiset(listing)["gold"] == (if top && "gold" !in owned then 1 else multiset(owned)["gold"])
      && listing[..|e|] == e
  {
    EntitlementsExact(owned, subscribed, top, "pride");
    EntitlementsExact(owned, subscribed, top, "subcone");
    EntitlementsExact(owned, subscribed, top, "gold");
    if "subcone" in owned {
      assert multiset(owned)["subcone"] > 0;
    }
    if "gold" in owned {
      assert multiset(owned)["gold"] > 0;
    }
  }

  /** A swap succeeds exactly for the skins the inventory listing shows, and for `default`. */
  lemma SwapAllowedIffListed(owned: seq<string>, subscribed: bool, top: bool, skin: string)
    ensures MaySwapTo(WithEntitlements(owned, subscribed, top), skin)
        <==> skin in InventoryListing(owned, subscribed, top) || skin == "default"
  {
  }

  /** The player has a row and may wear `wanted` by the swap test. */
  predicate SwapAllowed(users: seq<UserSkins>, name: string, wanted: string, subscribed: bool, top: bool)
  {
    var i := IndexOfUser(users, name);
    i >= 0 && MaySwapTo(WithEntitlements(Owned(users[i].inventory), subscribed, top), wanted)
  }

  /** What `!myskins` answers. */
  datatype InventoryReply = NoSkins(name: string) | Listing(name: string, skins: seq<string>, selected: string)

  /** What `!setskin` answers. */
  datatype SwapReply = NothingToSwap(name: string) | Swapped(name: string, skin: string) | NotOwned(name: string)

  /**
   * The entitlement pushes both commands make at time `now`: `subcone` when `subTier > 0`, then
   * `gold` when `leaderboard[0]?.name === name` on the leaderboard read through its cache.
   */
  method AddEntitlements(lb: LeaderboardManager, owned: seq<string>, name: string, subTier: int, now: int)
    returns (entitled: seq<string>)
    requires lb.Valid()
    modifies lb`cacheData, lb`lastUpdate, lb`cachedFrom
    ensures lb.Valid() && lb.ReadThrough(now)
    ensures entitled == WithEntitlements(owned, subTier > 0, IsTop(lb.cacheData.value, name))
  {
    entitled := owned;
    if subTier > 0 && "subcone" !in entitled {
      entitled := entitled + ["subcone"];
    }
    ghost var withSub := entitled;
    var leaderboard := lb.GetLeaderboard(now);
    if leaderboard != [] && leaderboard[0].name == name && "gold" !in entitled {
      entitled := entitled + ["gold"];
    }
    EntitlementSteps(owned, withSub, entitled, subTier > 0, IsTop(leaderboard, name));
  }

  lemma EntitlementSteps(owned: seq<string>, withSub: seq<string>, result: seq<string>, subscribed: bool, top: bool)
    requires withSub == if subscribed && "subcone" !in owned then owned + ["subcone"] else owned
    requires result == if top && "gold" !in withSub then withSub + ["gold"] else withSub
    ensures result == WithEntitlements(owned, subscribed, top)
  {
  }

  /**
   * `commandSkinsInventory(name)` at time `now`; `subTier` is what the subscription lookup returned.
   * It reads the leaderboard through its cache and writes nothing.
   */
  method CommandSkinsInventory(lb: LeaderboardManager, skins: SkinsManager, name: string, subTier: int, now: int)
    returns (reply: InventoryReply)
    requires lb.Valid()
    modifies lb`cacheData, lb`lastUpdate, lb`cachedFrom
    ensures lb.Valid()
    ensures var i := IndexOfUser(skins.users, name);
      && (i < 0 ==> reply == NoSkins(name) && unchanged(lb))
      && (i >= 0 ==>
            && lb.ReadThrough(now)
            && reply == Listing(name,
                 InventoryListing(Owned(skins.users[i].inventory), subTier > 0, IsTop(lb.cacheData.value, name)),
                 skins.users[i].skin))
  {
    var i := IndexOfUser(skins.users, name);
    if i < 0 {
      return NoSkins(name);
    }
    var user := skins.users[i];
    var owned := AddEntitlements(lb, Owned(user.inventory), name, subTier, now);
    owned := owned + ["pride"];
    reply := Listing(name, owned, user.skin);
  }

  /**
   * `commandSkinsSwap(name, skin)` at time `now`; `subTier` is what the subscription lookup returned.
   * On success it writes the selected skin of the player's row and nothing else.
   */
  method CommandSkinsSwap(lb: LeaderboardManager, skins: SkinsManager, name: string, skin: string, subTier: int, now: int)
    returns (reply: SwapReply)
    requires lb.Valid() && skins.Valid()
    modifies lb`cacheData, lb`lastUpdate, lb`cachedFrom, skins`users
    ensures lb.Valid() && skins.Valid()
    ensures IndexOfUser(old(skins.users), name) < 0 ==>
      reply == NothingToSwap(name) && unchanged(lb) && skins.users == old(skins.users)
    ensures IndexOfUser(old(skins.users), name) >= 0 ==>
      lb.ReadThrough(now)
    ensures IndexOfUser(old(skins.users), name) >= 0 && lb.cacheData.Some? ==>
      var allowed := SwapAllowed(old(skins.users), name, Trim(skin), subTier > 0, IsTop(lb.cacheData.value, name));
      && (allowed ==> reply == Swapped(name, Trim(skin)) && skins.users == Select(old(skins.users), name, Trim(skin)))
      && (!allowed ==> reply == NotOwned(name) && skins.users == old(skins.users))
  {
    var wanted := Trim(skin);
    var i := IndexOfUser(skins.users, name);
    if i < 0 {
      return NothingToSwap(name);
    }
    var allowed := CheckSwap(lb, skins.users, name, wanted, subTier, now);
    reply := ApplySwap(skins, name, wanted, allowed);
  }

  /**
   * The `!setskin` test for a player with a `user_skins` row: their owned skins with the
   * entitlements on the leaderboard read through its cache, then `default` and `pride`.
   */
  method CheckSwap(lb: LeaderboardManager, users: seq<UserSkins>, name: string, wanted: string, subTier: int, now: int)
    returns (allowed: bool)
    requires lb.Valid()
    requires IndexOfUser(users, name) >= 0
    modifies lb`cacheData, lb`lastUpdate, lb`cachedFrom
    ensures lb.Valid() && lb.ReadThrough(now)
    ensures allowed == SwapAllowed(users, name, wanted, subTier > 0, IsTop(lb.cacheData.value, name))
  {
    var user := users[IndexOfUser(users, name)];
    var inventory := if user.inventory != "" then Owned(user.inventory) else [];
    OwnedOfEmpty();
    var checkInventory := AddEntitlements(lb, inventory, name, subTier, now);
    allowed := MaySwapTo(checkInventory, wanted);
  }

  /** The answer of `!setskin` once the check is made: select the skin if allowed, else refuse. */
  method ApplySwap(skins: SkinsManager, name: string, wanted: string, allowed: bool) returns (reply: SwapReply)
    requires skins.Valid()
    modifies skins`users
    ensures skins.Valid()
    ensures allowed ==> reply == Swapped(name, wanted) && skins.users == Select(old(skins.users), name, wanted)
    ensures !allowed ==> reply == NotOwned(name) && skins.users == old(skins.users)
  {
    if allowed {
      skins.SelectSkin(name, wanted);
      reply := Swapped(name, wanted);
    } else {
      reply := NotOwned(name);
    }
  }
}
