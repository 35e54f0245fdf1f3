/**
 * The skin engine (`SkinsManager`): the skin catalog loaded from configuration, the `user_skins`
 * table, grant-and-equip, the weighted random unboxing and the odds listing.
 */
module Skins {
  import opened Wrappers
  import opened Text
  import opened StableSort
  import opened Sums

  /** An entry of the skins configuration file; `unboxWeight` may be missing. */
  datatype SkinConfig = SkinConfig(name: string, visuals: string, canUnbox: bool, unboxWeight: Option<real>)

  /** A row of the `skins` table, and a value of the in-memory catalog `availableSkins`. */
  datatype Skin = Skin(name: string, visuals: string, canUnbox: bool, unboxWeight: real)

  /** A row of the `user_skins` table: the selected skin and the comma-joined owned skins. */
  datatype UserSkins = UserSkins(name: string, skin: string, twitchId: string, inventory: string)

  predicate CatalogNamesUnique(catalog: seq<Skin>)
  {
    forall i, j :: 0 <= i < j < |catalog| ==> catalog[i].name != catalog[j].name
  }

  predicate UserNamesUnique(users: seq<UserSkins>)
  {
    forall i, j :: 0 <= i < j < |users| ==> users[i].name != users[j].name
  }

  predicate AllWeightsNonNegative(catalog: seq<Skin>)
  {
    forall i :: 0 <= i < |catalog| ==> catalog[i].unboxWeight >= 0.0
  }

  // ---------------------------------------------------------------------------
  // Catalog (loadConfiguredSkins, isValidSkin)
  // ---------------------------------------------------------------------------

  /** The row inserted for a configuration entry: a missing weight is stored as 0. */
  function FromConfig(c: SkinConfig): Skin
  {
    Skin(c.name, c.visuals, c.canUnbox, c.unboxWeight.GetOr(0.0))
  }

  /** The catalog without the row named `name`, as `INSERT OR REPLACE` deletes it. */
  function Without(catalog: seq<Skin>, name: string): seq<Skin>
  {
    if catalog == [] then []
    else (if catalog[0].name == name then [] else [catalog[0]]) + Without(catalog[1..], name)
  }

  /** The `skins` table after the configuration has been inserted entry by entry into an empty table. */
  function Loaded(config: seq<SkinConfig>): seq<Skin>
  {
    if config == [] then []
    else
      var s := FromConfig(config[|config| - 1]);
      Without(Loaded(config[..|config| - 1]), s.name) + [s]
  }

  predicate Configured(config: seq<SkinConfig>, name: string)
  {
    exists i :: 0 <= i < |config| && config[i].name == name
  }

  /** The configuration entries no later entry overrides, in configuration order. */
  function LastOccurrences(config: seq<SkinConfig>): seq<Skin>
  {
    if config == [] then []
    else
      (if Configured(config[1..], config[0].name) then [] else [FromConfig(config[0])])
      + LastOccurrences(config[1..])
  }

  /** The last configuration entry with this name, if any. */
  function LastConfigured(config: seq<SkinConfig>, name: string): Option<SkinConfig>
  {
    if config == [] then None
    else if config[|config| - 1].name == name then Some(config[|config| - 1])
    else LastConfigured(config[..|config| - 1], name)
  }

  /** `availableSkins[name]`: the catalog row with that name. */
  function FindSkin(catalog: seq<Skin>, name: string): (r: Option<Skin>)
    ensures r.Some? ==> r.value in catalog && r.value.name == name
    ensures r.None? <==> forall i :: 0 <= i < |catalog| ==> catalog[i].name != name
  {
    if catalog == [] then None
    else if catalog[0].name == name then Some(catalog[0])
    else FindSkin(catalog[1..], name)
  }

  /** `isValidSkin(name)`: the catalog has a row with that name. */
  predicate IsValidSkin(catalog: seq<Skin>, name: string)
  {
    exists i :: 0 <= i < |catalog| && catalog[i].name == name
  }

  lemma {:induction false} WithoutAppend(a: seq<Skin>, b: seq<Skin>, name: string)
    ensures Without(a + b, name) == Without(a, name) + Without(b, name)
  {
    if a == [] {
      assert a + b == b;
    } else {
      var head := if a[0].name == name then [] else [a[0]];
      assert (a + b)[0] == a[0];
      assert (a + b)[1..] == a[1..] + b;
      assert Without(a + b, name) == head + Without(a[1..] + b, name);
      WithoutAppend(a[1..], b, name);
      assert Without(a, name) == head + Without(a[1..], name);
    }
  }

  lemma {:induction false} LastOccurrencesSnoc(config: seq<SkinConfig>, x: SkinConfig)
    ensures LastOccurrences(config + [x]) == Without(LastOccurrences(config), x.name) + [FromConfig(x)]
  {
    if config == [] {
      assert !Configured([], x.name);
      assert ([x])[1..] == [];
    } else {
      var c0 := config[0];
      var tail := config[1..];
      assert (config + [x])[0] == c0 && (config + [x])[1..] == tail + [x];
      LastOccurrencesSnoc(tail, x);
      var head := if Configured(tail, c0.name) then [] else [FromConfig(c0)];
      WithoutAppend(head, LastOccurrences(tail), x.name);
      ConfiguredSnoc(tail, x, c0.name);
    }
  }

  lemma ConfiguredSnoc(config: seq<SkinConfig>, x: SkinConfig, name: string)
    ensures Configured(config + [x], name) <==> Configured(config, name) || x.name == name
  {
    if x.name == name {
      assert (config + [x])[|config|] == x;
    }
    if Configured(config + [x], name) && x.name != name {
      var i :| 0 <= i < |config + [x]| && (config + [x])[i].name == name;
      assert i < |config| && config[i].name == name;
    }
    if Configured(config, name) {
      var i :| 0 <= i < |config| && config[i].name == name;
      assert (config + [x])[i].name == name;
    }
  }

  /** Loading keeps, for each name, only its last configuration entry, ordered by that entry's position. */
  lemma {:induction false} LoadedIsLastOccurrences(config: seq<SkinConfig>)
    ensures Loaded(config) == LastOccurrences(config)
  {
    if config != [] {
      var n := |config| - 1;
      LoadedIsLastOccurrences(config[..n]);
      LastOccurrencesSnoc(config[..n], config[n]);
      assert config[..n] + [config[n]] == config;
    }
  }

  lemma {:induction false} FindSkinAppend(a: seq<Skin>, b: seq<Skin>, name: string)
    ensures FindSkin(a + b, name) == if FindSkin(a, name).Some? then FindSkin(a, name) else FindSkin(b, name)
  {
    if a != [] {
      FindSkinAppend(a[1..], b, name);
      assert (a + b)[1..] == a[1..] + b;
    } else {
      assert a + b == b;
    }
  }

  lemma {:induction false} FindSkinWithout(catalog: seq<Skin>, removed: string, name: string)
    ensures FindSkin(Without(catalog, removed), name) == if name == removed then None else FindSkin(catalog, name)
  {
    if catalog != [] {
      FindSkinWithout(catalog[1..], removed, name);
      var head := if catalog[0].name == removed then [] else [catalog[0]];
      FindSkinAppend(head, Without(catalog[1..], removed), name);
    }
  }

  /** For every name, the loaded catalog holds exactly the last configuration entry with that name. */
  lemma {:induction false} LoadedLastWins(config: seq<SkinConfig>, name: string)
    ensures FindSkin(Loaded(config), name)
         == match LastConfigured(config, name)
            case None => None
            case Some(c) => Some(FromConfig(c))
  {
    if config != [] {
      var n := |config| - 1;
      var s := FromConfig(config[n]);
      LoadedLastWins(config[..n], name);
      FindSkinAppend(Without(Loaded(config[..n]), s.name), [s], name);
      FindSkinWithout(Loaded(config[..n]), s.name, name);
    }
  }

  /** A skin is valid after a load exactly when some configuration entry names it. */
  lemma {:induction false} ValidIffConfigured(config: seq<SkinConfig>, name: string)
    ensures IsValidSkin(Loaded(config), name) <==> Configured(config, name)
  {
    LoadedLastWins(config, name);
    LastConfiguredFound(config, name);
  }

  lemma {:induction false} LastConfiguredFound(config: seq<SkinConfig>, name: string)
    ensures LastConfigured(config, name).Some? <==> Configured(config, name)
  {
    if config != [] {
      var n := |config| - 1;
      LastConfiguredFound(config[..n], name);
      if Configured(config, name) && config[n].name != name {
        var i :| 0 <= i < |config| && config[i].name == name;
        assert config[..n][i].name == name;
      }
      if Configured(config[..n], name) {
        var i :| 0 <= i < n && config[..n][i].name == name;
        assert config[i].name == name;
      }
    }
  }

  /** The loaded catalog has one row per name. */
  lemma {:induction false} LoadedNamesUnique(config: seq<SkinConfig>)
    ensures CatalogNamesUnique(Loaded(config))
  {
    if config != [] {
      var n := |config| - 1;
      LoadedNamesUnique(config[..n]);
      var s := FromConfig(config[n]);
      var kept := Without(Loaded(config[..n]), s.name);
      WithoutKeepsUnique(Loaded(config[..n]), s.name);
      WithoutMembers(Loaded(config[..n]), s.name);
      assert forall i :: 0 <= i < |kept| ==> kept[i] in kept;
    }
  }

  /** Replacing a row removes exactly the rows with that name. */
  lemma {:induction false} WithoutMembers(catalog: seq<Skin>, name: string)
    ensures forall s :: s in Without(catalog, name) <==> s in catalog && s.name != name
  {
    if catalog != [] {
      WithoutMembers(catalog[1..], name);
      var head := if catalog[0].name == name then [] else [catalog[0]];
      assert Without(catalog, name) == head + Without(catalog[1..], name);
      assert catalog == [catalog[0]] + catalog[1..];
    }
  }

  lemma {:induction false} WithoutKeepsUnique(catalog: seq<Skin>, name: string)
    requires CatalogNamesUnique(catalog)
    ensures CatalogNamesUnique(Without(catalog, name))
  {
    if catalog != [] {
      WithoutKeepsUnique(catalog[1..], name);
      WithoutMembers(catalog[1..], name);
      var rest := Without(catalog[1..], name);
      assert forall i :: 0 <= i < |rest| ==> rest[i] in catalog[1..];
      assert forall s :: s in catalog[1..] ==> s.name != catalog[0].name;
    }
  }

  // ---------------------------------------------------------------------------
  // Weighted draw (getSkinsAvailableToUnbox, setRandomSkin)
  // ---------------------------------------------------------------------------

  /** `getSkinsAvailableToUnbox()`: the unboxable rows, in catalog order. */
  function UnboxPool(catalog: seq<Skin>): seq<Skin>
  {
    if catalog == [] then []
    else (if catalog[0].canUnbox then [catalog[0]] else []) + UnboxPool(catalog[1..])
  }

  /** The pool holds exactly the catalog rows that can be unboxed. */
  lemma {:induction false} UnboxPoolMembers(catalog: seq<Skin>)
    ensures forall s :: s in UnboxPool(catalog) <==> s in catalog && s.canUnbox
  {
    if catalog != [] {
      UnboxPoolMembers(catalog[1..]);
      assert catalog == [catalog[0]] + catalog[1..];
    }
  }

  /** The skin a draw lands on is a catalog row. */
  lemma DrawnInCatalog(catalog: seq<Skin>, random: real)
    ensures Draw(catalog, random) >= 0 ==> UnboxPool(catalog)[Draw(catalog, random)] in catalog
  {
    UnboxPoolMembers(catalog);
  }

  /** With non-negative weights a draw lands on a skin exactly when some skin can be unboxed. */
  lemma DrawLands(catalog: seq<Skin>, random: real)
    requires AllWeightsNonNegative(catalog)
    requires ScaledRange(random, TotalWeight(UnboxPool(catalog)))
    ensures Draw(catalog, random) >= 0 <==> UnboxPool(catalog) != []
  {
    var pool := UnboxPool(catalog);
    var k := Draw(catalog, random);
    if pool != [] {
      UnboxPoolWeights(catalog);
      PickAlwaysLands(pool, random);
      assert k >= 0;
    } else {
      assert k < 0;
    }
  }

  lemma {:induction false} UnboxPoolWeights(catalog: seq<Skin>)
    requires AllWeightsNonNegative(catalog)
    ensures AllWeightsNonNegative(UnboxPool(catalog))
  {
    if catalog != [] {
      UnboxPoolWeights(catalog[1..]);
    }
  }

  function WeightOf(s: Skin): real
  {
    s.unboxWeight
  }

  /** `reduce((sum, skin) => sum + skin.unboxWeight, 0)`. */
  function TotalWeight(pool: seq<Skin>): real
  {
    Sum(pool, WeightOf)
  }

  /** The running weight once skin `k` has been added: the sum of the weights of skins `0..k`. */
  function Reach(pool: seq<Skin>, k: nat): real
    requires k < |pool|
  {
    Sum(pool[..k + 1], WeightOf)
  }

  /** The first skin from `i` on whose running weight is at least `draw`; -1 if there is none. */
  function PickFrom(pool: seq<Skin>, draw: real, i: nat): (k: int)
    requires i <= |pool|
    ensures k == -1 || i <= k < |pool|
    ensures k >= 0 ==> draw <= Reach(pool, k) && forall j :: i <= j < k ==> Reach(pool, j) < draw
    ensures k == -1 ==> forall j :: i <= j < |pool| ==> Reach(pool, j) < draw
    decreases |pool| - i
  {
    if i == |pool| then -1
    else if draw <= Reach(pool, i) then i
    else PickFrom(pool, draw, i + 1)
  }

  /** The index the weighted walk of `setRandomSkin` stops at for the number `draw`. */
  function Pick(pool: seq<Skin>, draw: real): (k: int)
    ensures -1 <= k < |pool|
  {
    PickFrom(pool, draw, 0)
  }

  lemma {:induction false} ReachMonotone(pool: seq<Skin>, j: nat, k: nat)
    requires AllWeightsNonNegative(pool)
    requires j <= k < |pool|
    ensures Reach(pool, j) <= Reach(pool, k)
    decreases k - j
  {
    if j < k {
      ReachMonotone(pool, j, k - 1);
      PrefixSumStep(pool, WeightOf, k);
    }
  }

  /**
   * With non-negative weights, skin `k` is drawn exactly for the numbers in the interval
   * (running weight before `k`, running weight through `k`], whose length is the weight of `k`.
   */
  lemma PickInInterval(pool: seq<Skin>, draw: real, k: nat)
    requires AllWeightsNonNegative(pool)
    requires k < |pool|
    ensures Pick(pool, draw) == k <==> (k == 0 || Reach(pool, k - 1) < draw) && draw <= Reach(pool, k)
    ensures Reach(pool, k) - (if k == 0 then 0.0 else Reach(pool, k - 1)) == pool[k].unboxWeight
  {
    PrefixSumStep(pool, WeightOf, k);
    assert pool[..0] == [];
    var p := Pick(pool, draw);
    if (k == 0 || Reach(pool, k - 1) < draw) && draw <= Reach(pool, k) {
      if 0 <= p < k {
        ReachMonotone(pool, p, k - 1);
      }
    }
  }

  /** With non-negative weights and at least one unboxable skin, the walk always stops on some skin. */
  lemma PickAlwaysLands(pool: seq<Skin>, random: real)
    requires AllWeightsNonNegative(pool)
    requires pool != []
    requires ScaledRange(random, TotalWeight(pool))
    ensures 0 <= Pick(pool, random)
  {
    var n := |pool| - 1;
    assert pool[..n + 1] == pool;
    ReachNonNegative(pool, n);
    assert Reach(pool, n) == TotalWeight(pool);
  }

  /**
   * Where `Math.random() * totalWeight` lies: in [0, total) for a positive total, at 0 for a zero
   * total and in (total, 0] for a negative one.
   */
  predicate ScaledRange(random: real, total: real)
  {
    if total > 0.0 then 0.0 <= random < total
    else if total == 0.0 then random == 0.0
    else total < random <= 0.0
  }

  /** `ScaledRange` holds of every `Math.random() * total`, and every value in it is one. */
  lemma ScaledRangeExact(r: real, random: real, total: real)
    ensures 0.0 <= r < 1.0 ==> ScaledRange(r * total, total)
    ensures ScaledRange(random, total) && total != 0.0 ==> 0.0 <= random / total < 1.0 && random / total * total == random
  {
    if 0.0 <= r < 1.0 {
      if total > 0.0 {
        assert r * total < 1.0 * total;
      } else if total < 0.0 {
        assert r * total > 1.0 * total;
      }
    }
  }

  lemma {:induction false} ReachNonNegative(pool: seq<Skin>, k: nat)
    requires AllWeightsNonNegative(pool)
    requires k < |pool|
    ensures 0.0 <= Reach(pool, k)
  {
    PrefixSumStep(pool, WeightOf, k);
    if k > 0 {
      ReachNonNegative(pool, k - 1);
    } else {
      assert pool[..0] == [];
    }
  }

  /** The walk of `setRandomSkin`: add each weight to `currentWeight`, stop at the first `draw <= currentWeight`. */
  method PickWeighted(pool: seq<Skin>, draw: real) returns (k: int)
    ensures k == Pick(pool, draw)
  {
    var currentWeight := 0.0;
    var i := 0;
    assert pool[..0] == [];
    while i < |pool|
      invariant 0 <= i <= |pool|
      invariant currentWeight == Sum(pool[..i], WeightOf)
      invariant Pick(pool, draw) == PickFrom(pool, draw, i)
    {
      currentWeight := currentWeight + pool[i].unboxWeight;
      PrefixSumStep(pool, WeightOf, i);
      if draw <= currentWeight {
        return i;
      }
      i := i + 1;
    }
    return -1;
  }

  /** `((weight / totalWeight) * 100)` before its one-decimal rendering; None where JavaScript yields NaN or Infinity. */
  function Share(weight: real, total: real): (p: Option<real>)
    ensures p.Some? <==> total != 0.0
    ensures p.Some? && 0.0 <= weight <= total ==> 0.0 <= p.value <= 100.0
  {
    if total == 0.0 then None
    else if 0.0 <= weight <= total then RatioBounds(weight, total); Some(weight / total * 100.0)
    else Some(weight / total * 100.0)
  }

  // ---------------------------------------------------------------------------
  // Odds listing (calculateSkinOdds)
  // ---------------------------------------------------------------------------

  /** The comparator `b.unboxWeight - a.unboxWeight` is negative: `a` is heavier and comes first. */
  predicate Heavier(a: Skin, b: Skin)
  {
    b.unboxWeight - a.unboxWeight < 0.0
  }

  lemma HeavierIsStrictWeakOrder()
    ensures StrictWeakOrder(Heavier)
  {
  }

  /** One entry `name (percent%)` of the odds listing. */
  datatype OddsLine = OddsLine(name: string, percent: Option<real>)

  function OddsLines(sorted: seq<Skin>, total: real): seq<OddsLine>
  {
    seq(|sorted|, i requires 0 <= i < |sorted| => OddsLine(sorted[i].name, Share(sorted[i].unboxWeight, total)))
  }

  /** `calculateSkinOdds()`: the unboxable skins by decreasing weight with their share of the total weight. */
  function CalculateSkinOdds(catalog: seq<Skin>): seq<OddsLine>
  {
    var pool := UnboxPool(catalog);
    OddsLines(SortBy(pool, Heavier), TotalWeight(pool))
  }

  /** The listing names every unboxable skin, heaviest first, equal weights in catalog order. */
  lemma OddsListing(catalog: seq<Skin>, x: Skin)
    ensures var pool := UnboxPool(catalog);
      var sorted := SortBy(pool, Heavier);
      var lines := CalculateSkinOdds(catalog);
      && multiset(sorted) == multiset(pool)
      && |lines| == |pool|
      && (forall i :: 0 <= i < |lines| ==>
            lines[i] == OddsLine(sorted[i].name, Share(sorted[i].unboxWeight, TotalWeight(pool))))
      && (forall i, j :: 0 <= i < j < |sorted| ==> sorted[i].unboxWeight >= sorted[j].unboxWeight)
      && EquivalentTo(sorted, x, Heavier) == EquivalentTo(pool, x, Heavier)
  {
    var pool := UnboxPool(catalog);
    var sorted := SortBy(pool, Heavier);
    HeavierIsStrictWeakOrder();
    SortBySorted(pool, Heavier);
    SortedEverywhere(sorted, Heavier);
    SortByStable(pool, x, Heavier);
  }

  function PercentOf(line: OddsLine): real
  {
    line.percent.GetOr(0.0)
  }

  lemma DivideSum(a: real, b: real, t: real)
    requires t != 0.0
    ensures a / t * 100.0 + b / t * 100.0 == (a + b) / t * 100.0
  {
  }

  lemma {:induction false} SharesSum(sorted: seq<Skin>, total: real)
    requires total != 0.0
    ensures Sum(OddsLines(sorted, total), PercentOf) == TotalWeight(sorted) / total * 100.0
  {
    if sorted != [] {
      var n := |sorted| - 1;
      var lines := OddsLines(sorted, total);
      assert lines[..n] == OddsLines(sorted[..n], total);
      SharesSum(sorted[..n], total);
      assert Sum(lines, PercentOf) == Sum(lines[..n], PercentOf) + PercentOf(lines[n]);
      assert TotalWeight(sorted) == TotalWeight(sorted[..n]) + sorted[n].unboxWeight;
      DivideSum(TotalWeight(sorted[..n]), sorted[n].unboxWeight, total);
    }
  }

  /** When the total weight is not zero, the listed percentages add up to exactly 100. */
  lemma OddsSumToHundred(catalog: seq<Skin>)
    requires TotalWeight(UnboxPool(catalog)) != 0.0
    ensures Sum(CalculateSkinOdds(catalog), PercentOf) == 100.0
  {
    var pool := UnboxPool(catalog);
    var sorted := SortBy(pool, Heavier);
    var total := TotalWeight(pool);
    assert CalculateSkinOdds(catalog) == OddsLines(sorted, total);
    SharesSum(sorted, total);
    SumPermutation(sorted, pool, WeightOf);
    WholeShare(total);
  }

  lemma WholeShare(t: real)
    requires t != 0.0
    ensures t / t * 100.0 == 100.0
  {
  }

  lemma {:induction false} UnboxPoolNamesUnique(catalog: seq<Skin>)
    requires CatalogNamesUnique(catalog)
    ensures CatalogNamesUnique(UnboxPool(catalog))
  {
    if catalog != [] {
      UnboxPoolNamesUnique(catalog[1..]);
      UnboxPoolMembers(catalog[1..]);
      var rest := UnboxPool(catalog[1..]);
      assert forall i :: 0 <= i < |rest| ==> rest[i] in catalog[1..];
      assert forall s :: s in catalog[1..] ==> s.name != catalog[0].name;
    }
  }

  lemma {:induction false} CountsOnce(s: seq<Skin>, a: Skin)
    requires CatalogNamesUnique(s)
    ensures multiset(s)[a] <= 1
  {
    if s != [] {
      CountsOnce(s[1..], a);
      assert s == [s[0]] + s[1..];
      if s[0] == a {
        assert forall k :: 0 <= k < |s[1..]| ==> s[1..][k].name != a.name;
      }
    }
  }

  lemma TwoOccurrences(s: seq<Skin>, i: nat, j: nat)
    requires i < j < |s| && s[i] == s[j]
    ensures multiset(s)[s[i]] >= 2
  {
    assert s == s[..j] + s[j..];
    assert s[..j][i] == s[i];
    assert s[j..][0] == s[i];
  }

  /** A reordering of a catalog with one row per name again has one row per name. */
  lemma PermutationKeepsNamesUnique(s: seq<Skin>, t: seq<Skin>)
    requires multiset(s) == multiset(t)
    requires CatalogNamesUnique(t)
    ensures CatalogNamesUnique(s)
  {
    forall i, j | 0 <= i < j < |s|
      ensures s[i].name != s[j].name
    {
      var a, b := s[i], s[j];
      assert a in multiset(t) && b in multiset(t);
      var p :| 0 <= p < |t| && t[p] == a;
      var q :| 0 <= q < |t| && t[q] == b;
      if a.name == b.name {
        if p == q {
          TwoOccurrences(s, i, j);
          CountsOnce(t, a);
        }
      }
    }
  }

  /** With one row per name in the catalog, no skin is listed twice. */
  lemma OddsNamesDistinct(catalog: seq<Skin>)
    requires CatalogNamesUnique(catalog)
    ensures var lines := CalculateSkinOdds(catalog);
      forall i, j :: 0 <= i < j < |lines| ==> lines[i].name != lines[j].name
  {
    var pool := UnboxPool(catalog);
    UnboxPoolNamesUnique(catalog);
    PermutationKeepsNamesUnique(SortBy(pool, Heavier), pool);
  }

  // ---------------------------------------------------------------------------
  // Inventories (setSkin)
  // ---------------------------------------------------------------------------

  /** The owned list `setSkin` works on: `user.inventory ? user.inventory.split(',') : []`. */
  function Entries(inventory: string): seq<string>
  {
    if inventory == "" then [] else Split(inventory)
  }

  /** The inventory string `setSkin` writes: the skin is appended, after a comma, only when absent. */
  function AddToInventory(inventory: string, skin: string): string
  {
    if inventory == "" then skin
    else if skin in Split(inventory) then inventory
    else inventory + "," + skin
  }

  /** Granting keeps every earlier entry in order and adds the skin once, only when it is not there yet. */
  lemma GrantEntries(inventory: string, skin: string)
    requires ',' !in skin && skin != ""
    ensures Entries(AddToInventory(inventory, skin))
         == if skin in Entries(inventory) then Entries(inventory) else Entries(inventory) + [skin]
  {
    if inventory == "" {
      SplitNoComma(skin);
    } else if skin !in Split(inventory) {
      SplitSnoc(inventory, skin);
    }
  }

  /** Granting the same skin twice is granting it once. */
  lemma GrantIdempotent(inventory: string, skin: string)
    requires ',' !in skin && skin != ""
    ensures AddToInventory(AddToInventory(inventory, skin), skin) == AddToInventory(inventory, skin)
  {
    GrantEntries(inventory, skin);
  }

  /**
   * Why the grant lemmas exclude some names: a skin named with a comma is split apart, so it is
   * never an entry and every grant appends it again; the empty name leaves an empty inventory.
   */
  lemma UnstorableNames()
    ensures Entries(AddToInventory("x", "a,b")) == ["x", "a", "b"]
    ensures AddToInventory(AddToInventory("x", "a,b"), "a,b") == "x,a,b,a,b"
    ensures Entries(AddToInventory("", "")) == []
  {
    assert "b"[1..] == "" && [""][1..] == [] && ['b'] + "" == "b";
    assert Split("b") == ["b"];
    assert ",b"[1..] == "b" && Split(",b") == ["", "b"];
    assert "a,b"[1..] == ",b" && ["", "b"][1..] == ["b"] && ['a'] + "" == "a";
    assert Split("a,b") == ["a", "b"];
    assert ",a,b"[1..] == "a,b" && Split(",a,b") == ["", "a", "b"];
    assert "x,a,b"[1..] == ",a,b" && ["", "a", "b"][1..] == ["a", "b"] && ['x'] + "" == "x";
    assert Split("x,a,b") == ["x", "a", "b"];
  }

  /** `inventory.split(',').map(s => s.trim())` (or `[]` for an empty inventory), as `setRandomSkin` reads it. */
  function TrimmedEntries(inventory: string): seq<string>
  {
    var entries := Entries(inventory);
    seq(|entries|, i requires 0 <= i < |entries| => Trim(entries[i]))
  }

  /** A skin is among the trimmed entries exactly when some entry of the inventory trims to it. */
  lemma TrimmedEntriesMembers(inventory: string)
    ensures |TrimmedEntries(inventory)| == |Entries(inventory)|
    ensures forall s :: s in TrimmedEntries(inventory) <==> exists e :: e in Entries(inventory) && Trim(e) == s
  {
    var entries := Entries(inventory);
    var r := TrimmedEntries(inventory);
    forall s | s in r
      ensures exists e :: e in entries && Trim(e) == s
    {
      var i :| 0 <= i < |r| && r[i] == s;
      assert entries[i] in entries;
    }
    forall s | exists e :: e in entries && Trim(e) == s
      ensures s in r
    {
      var e :| e in entries && Trim(e) == s;
      var i :| 0 <= i < |entries| && entries[i] == e;
      assert r[i] == s;
    }
  }

  /** A drawn skin that is not owned, even after trimming, grows the owned list by exactly that skin. */
  lemma NewDrawGrowsInventoryByOne(inventory: string, skin: string)
    requires ',' !in skin && skin != "" && Trim(skin) == skin
    requires skin !in TrimmedEntries(inventory)
    ensures Entries(AddToInventory(inventory, skin)) == Entries(inventory) + [skin]
  {
    TrimmedEntriesMembers(inventory);
    GrantEntries(inventory, skin);
  }

  /** The row of `name` in `user_skins`, or -1. */
  function IndexOfUser(users: seq<UserSkins>, name: string): (i: int)
    ensures -1 <= i < |users|
    ensures i == -1 <==> forall j :: 0 <= j < |users| ==> users[j].name != name
    ensures i >= 0 ==> users[i].name == name && forall j :: 0 <= j < i ==> users[j].name != name
  {
    if users == [] then -1
    else if users[0].name == name then 0
    else
      var k := IndexOfUser(users[1..], name);
      if k == -1 then -1 else k + 1
  }

  /** The `user_skins` table after `setSkin(name, skin)` grants and equips a valid skin. */
  function Grant(users: seq<UserSkins>, name: string, skin: string, twitchId: string): seq<UserSkins>
  {
    var i := IndexOfUser(users, name);
    if i >= 0 then users[i := users[i].(inventory := AddToInventory(users[i].inventory, skin), skin := skin)]
    else users + [UserSkins(name, skin, twitchId, AddToInventory("", skin))]
  }

  /**
   * After a grant the player has a row that selects the skin and owns it, the owned list grew by
   * at most that skin, and every other row is as it was.
   */
  lemma GrantEquips(users: seq<UserSkins>, name: string, skin: string, twitchId: string)
    requires ',' !in skin && skin != ""
    ensures var r := Grant(users, name, skin, twitchId);
      var i := IndexOfUser(users, name);
      var k := IndexOfUser(r, name);
      var before := if i >= 0 then users[i].inventory else "";
      && k >= 0
      && r[k].skin == skin
      && skin in Entries(r[k].inventory)
      && Entries(r[k].inventory) == (if skin in Entries(before) then Entries(before) else Entries(before) + [skin])
      && (i >= 0 ==> k == i && |r| == |users| && r[k].twitchId == users[i].twitchId)
      && (i < 0 ==> k == |users| && r == users + [r[k]] && r[k].twitchId == twitchId)
      && (forall j :: 0 <= j < |users| && j != k ==> r[j] == users[j])
  {
    var r := Grant(users, name, skin, twitchId);
    var i := IndexOfUser(users, name);
    var before := if i >= 0 then users[i].inventory else "";
    GrantEntries(before, skin);
    assert forall j :: 0 <= j < |users| ==> r[j].name == users[j].name;
    if i < 0 {
      assert r[|users|].name == name;
    }
  }

  /** A grant keeps one row per name. */
  lemma GrantKeepsNamesUnique(users: seq<UserSkins>, name: string, skin: string, twitchId: string)
    requires UserNamesUnique(users)
    ensures UserNamesUnique(Grant(users, name, skin, twitchId))
  {
  }

  /** Repeating `setSkin(name, skin)` leaves the table as the first call left it. */
  lemma GrantTwice(users: seq<UserSkins>, name: string, skin: string, twitchId: string)
    requires ',' !in skin && skin != ""
    ensures Grant(Grant(users, name, skin, twitchId), name, skin, twitchId) == Grant(users, name, skin, twitchId)
  {
    var r := Grant(users, name, skin, twitchId);
    GrantEquips(users, name, skin, twitchId);
    var k := IndexOfUser(r, name);
    var i := IndexOfUser(users, name);
    var before := if i >= 0 then users[i].inventory else "";
    GrantIdempotent(before, skin);
  }

  /** `UPDATE user_skins SET skin = ? WHERE name = ?`: select a skin without touching the inventory. */
  function Select(users: seq<UserSkins>, name: string, skin: string): seq<UserSkins>
  {
    var i := IndexOfUser(users, name);
    if i < 0 then users else users[i := users[i].(skin := skin)]
  }

  /**
   * Selecting changes only the `skin` column of the player's row: names, Twitch ids and
   * inventories of every row stay as they were, and a player without a row is not added.
   */
  lemma SelectOnlySkin(users: seq<UserSkins>, name: string, skin: string)
    ensures var r := Select(users, name, skin);
      && |r| == |users|
      && (forall j :: 0 <= j < |r| ==>
            && r[j].name == users[j].name
            && r[j].twitchId == users[j].twitchId
            && r[j].inventory == users[j].inventory
            && r[j].skin == (if users[j].name == name && j == IndexOfUser(users, name) then skin else users[j].skin))
      && (UserNamesUnique(users) ==> UserNamesUnique(r))
  {
  }

  // ---------------------------------------------------------------------------
  // The manager
  // ---------------------------------------------------------------------------

  /** What `setSkin` answers: the thrown `'Invalid skin.'`, or the confirmation for `name` and `skin`. */
  datatype SetSkinResult = InvalidSkin | SkinUpdated(name: string, skin: string)

  /** What `setRandomSkin` answers: nothing (`undefined`), a repeat draw, or a new skin, with the drawn odds. */
  datatype UnboxResult =
    | NothingDrawn
    | AlreadyOwned(skin: string, odds: Option<real>)
    | Unboxed(skin: string, odds: Option<real>)

  /** The index of the unboxable skin `setRandomSkin` draws when `Math.random() * totalWeight` is `random`, or -1. */
  function Draw(catalog: seq<Skin>, random: real): (k: int)
    ensures -1 <= k < |UnboxPool(catalog)|
  {
    Pick(UnboxPool(catalog), random)
  }

  /** The player's row lists the skin, once its entries are trimmed. */
  predicate Owns(users: seq<UserSkins>, name: string, skin: string)
  {
    var i := IndexOfUser(users, name);
    i >= 0 && skin in TrimmedEntries(users[i].inventory)
  }

  class SkinsManager {
    /** `availableSkins`, in the order the `skins` table returns its rows. */
    var catalog: seq<Skin>
    /** The `user_skins` table, in row order. */
    var users: seq<UserSkins>

    ghost predicate Valid()
      reads this
    {
      CatalogNamesUnique(catalog) && UserNamesUnique(users)
    }

    constructor (stored: seq<UserSkins>)
      requires UserNamesUnique(stored)
      ensures Valid() && catalog == [] && users == stored
    {
      catalog := [];
      users := stored;
    }

    /** `loadConfiguredSkins()` with the parsed configuration file: clear the table, insert each entry, rebuild the catalog. */
    method LoadConfiguredSkins(config: seq<SkinConfig>)
      requires Valid()
      modifies this`catalog
      ensures Valid()
      ensures catalog == Loaded(config)
    {
      var table: seq<Skin> := [];
      for i := 0 to |config|
        invariant table == Loaded(config[..i])
      {
        var skin := FromConfig(config[i]);
        table := Without(table, skin.name) + [skin];
        assert config[..i + 1][..i] == config[..i];
      }
      assert config[..|config|] == config;
      LoadedNamesUnique(config);
      catalog := table;
    }

    /** `setSkin(name, skin)`; `twitchId` is what the Twitch lookup returned for a player without a row. */
    method SetSkin(name: string, skin: string, twitchId: Option<string>) returns (res: SetSkinResult)
      requires Valid()
      modifies this`users
      ensures Valid()
      ensures !IsValidSkin(catalog, skin) ==> res == InvalidSkin && users == old(users)
      ensures IsValidSkin(catalog, skin) ==>
        res == SkinUpdated(name, skin) && users == Grant(old(users), name, skin, twitchId.GetOr(""))
    {
      if !IsValidSkin(catalog, skin) {
        return InvalidSkin;
      }
      var i := IndexOfUser(users, name);
      var inventory: seq<string> := if i >= 0 && users[i].inventory != "" then Split(users[i].inventory) else [];
      if skin !in inventory {
        inventory := inventory + [skin];
      }
      var updatedInventory := Join(inventory);
      if i >= 0 {
        var before := users[i].inventory;
        if before != "" {
          JoinSplit(before);
          if skin !in Split(before) {
            JoinSnoc(Split(before), skin);
          }
        }
        assert updatedInventory == AddToInventory(before, skin);
        users := users[i := users[i].(inventory := updatedInventory, skin := skin)];
      } else {
        users := users + [UserSkins(name, skin, twitchId.GetOr(""), updatedInventory)];
      }
      GrantKeepsNamesUnique(old(users), name, skin, twitchId.GetOr(""));
      res := SkinUpdated(name, skin);
    }

    /** The swap write `UPDATE user_skins SET skin = ? WHERE name = ?`. */
    method SelectSkin(name: string, skin: string)
      requires Valid()
      modifies this`users
      ensures Valid()
      ensures users == Select(old(users), name, skin)
    {
      var i := IndexOfUser(users, name);
      if i >= 0 {
        users := users[i := users[i].(skin := skin)];
      }
      SelectOnlySkin(old(users), name, skin);
    }

    /** `setRandomSkin(name)`, with `random` the value `Math.random() * totalWeight` took. */
    method SetRandomSkin(name: string, random: real, twitchId: Option<string>) returns (res: UnboxResult)
      requires Valid()
      requires ScaledRange(random, TotalWeight(UnboxPool(catalog)))
      modifies this`users
      ensures Valid()
      ensures var pool := UnboxPool(catalog);
        Draw(catalog, random) < 0 ==> res == NothingDrawn && users == old(users)
      ensures var pool := UnboxPool(catalog);
        var k := Draw(catalog, random);
        k >= 0 && Owns(old(users), name, pool[k].name) ==>
          res == AlreadyOwned(pool[k].name, Share(pool[k].unboxWeight, TotalWeight(pool))) && users == old(users)
      ensures var pool := UnboxPool(catalog);
        var k := Draw(catalog, random);
        k >= 0 && !Owns(old(users), name, pool[k].name) ==>
          && res == Unboxed(pool[k].name, Share(pool[k].unboxWeight, TotalWeight(pool)))
          && users == Grant(old(users), name, pool[k].name, twitchId.GetOr(""))
      ensures AllWeightsNonNegative(catalog) ==> (res == NothingDrawn <==> UnboxPool(catalog) == [])
    {
      var pool := UnboxPool(catalog);
      var totalWeight := TotalWeight(pool);
      var k := PickWeighted(pool, random);
      if AllWeightsNonNegative(catalog) {
        DrawLands(catalog, random);
      }
      if k < 0 {
        return NothingDrawn;
      }
      var drawn := pool[k];
      var odds := Share(drawn.unboxWeight, totalWeight);
      var i := IndexOfUser(users, name);
      var inventory := if i >= 0 then TrimmedEntries(users[i].inventory) else [];
      if drawn.name in inventory {
        assert Owns(users, name, drawn.name);
        return AlreadyOwned(drawn.name, odds);
      }
      assert !Owns(users, name, drawn.name);
      DrawnInCatalog(catalog, random);
      assert IsValidSkin(catalog, drawn.name) by {
        var j :| 0 <= j < |catalog| && catalog[j] == drawn;
      }
      var _ := SetSkin(name, drawn.name, twitchId);
      res := Unboxed(drawn.name, odds);
    }
  }
}
