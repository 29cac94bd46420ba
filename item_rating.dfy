/**
 * The item-rating exporter: it samples the rows of a curve table at every
 * integer level of each rarity/tier and files the samples under
 * "{rarity}_T{tier:00}" keys.
 *
 * A curve is opaque here: a function from a level to a rating value of the
 * type parameter `V`. Nothing in the exporter does arithmetic on ratings.
 */
module ItemRating {
  import opened Wrappers
  import opened Text
  import opened Rarities

  /** A rarity and the highest tier that rarity comes in. */
  datatype RarityTier = RarityTier(rarity: Rarity, maxTier: nat)

  /** A tier and the inclusive level range it covers. */
  datatype TierLevel = TierLevel(tier: nat, minLevel: int, maxLevel: int)

  const RarityTiers: seq<RarityTier> :=
    [RarityTier(C, 2), RarityTier(UC, 3), RarityTier(R, 4), RarityTier(VR, 5), RarityTier(SR, 5), RarityTier(UR, 5)]

  /** Adjacent ranges share their boundary level; tier 5 reaches level 60 with superchargers. */
  const TierLevels: seq<TierLevel> :=
    [TierLevel(1, 1, 10), TierLevel(2, 10, 20), TierLevel(3, 20, 30), TierLevel(4, 30, 40), TierLevel(5, 40, 60)]

  /** The sampled ratings of one rarity/tier: `ratings[i]` is the rating at level `firstLevel + i`. */
  datatype ItemRatingTier<V> = ItemRatingTier(firstLevel: int, ratings: seq<V>)

  /** The tiers of one rating table, by "{rarity}_T{tier:00}" key. */
  type ItemRatingTable<V> = map<string, ItemRatingTier<V>>

  /**
   * A curve table: each row name maps to the row's curve, or to None when the
   * row is listed but its curve cannot be found.
   */
  datatype CurveTable<V> = CurveTable(rowMap: map<string, Option<int -> V>>)

  /** The curve of the row named exactly `rowName`; None when the row is missing or has no curve. */
  function FindCurve<V>(ct: CurveTable<V>, rowName: string): (r: Option<int -> V>)
    ensures r.Some? <==> rowName in ct.rowMap && ct.rowMap[rowName].Some?
    ensures r.Some? ==> ct.rowMap[rowName] == r
  {
    if rowName in ct.rowMap then ct.rowMap[rowName] else None
  }

  // ---------------------------------------------------------------------------
  // Keys and row names
  // ---------------------------------------------------------------------------

  /** One rarity/tier combination. */
  datatype Slot = Slot(rarity: Rarity, tier: nat)

  predicate ValidTier(t: nat) { 1 <= t < 100 }

  function MaxTier(r: Rarity): nat { RarityTiers[Ordinal(r)].maxTier }

  /** The level range of tier `t`, from the tier-level table. */
  function LevelRange(t: nat): (tl: TierLevel)
    requires 1 <= t <= |TierLevels|
  {
    TierLevels[t - 1]
  }

  /** The output key "{rarity}_T{tier:00}". */
  function Key(s: Slot): string
    requires ValidTier(s.tier)
  {
    Code(s.rarity) + "_T" + Pad2(s.tier)
  }

  /** A key is the rarity's code, "_T", and two digits that read back as the tier. */
  lemma KeyShape(s: Slot)
    requires ValidTier(s.tier)
    ensures var k := Key(s);
      && |k| == |Code(s.rarity)| + 4 && k[..|Code(s.rarity)|] == Code(s.rarity)
      && k[|k| - 4..|k| - 2] == "_T" && AllDigits(k[|k| - 2..]) && DecimalValue(k[|k| - 2..]) == s.tier
  {
    var k := Key(s);
    assert k[|k| - 2..] == Pad2(s.tier);
  }

  /** The curve-table row "{prefix}_{rarity}_T{tier:00}": the key behind the prefix. */
  function RowName(prefix: string, s: Slot): (n: string)
    requires ValidTier(s.tier)
    ensures n == prefix + "_" + Key(s)
  {
    prefix + "_" + Code(s.rarity) + "_T" + Pad2(s.tier)
  }

  /** A key determines its rarity and tier, so no two slots collide in a table. */
  lemma KeyInjective()
    ensures forall a: Slot, b: Slot :: ValidTier(a.tier) && ValidTier(b.tier) && Key(a) == Key(b) ==> a == b
  {
    forall a: Slot, b: Slot | ValidTier(a.tier) && ValidTier(b.tier) && Key(a) == Key(b)
      ensures a == b
    {
      var ka, kb := Key(a), Key(b);
      assert |Code(a.rarity)| == |Code(b.rarity)|;
      assert ka[..|Code(a.rarity)|] == Code(a.rarity);
      assert kb[..|Code(b.rarity)|] == Code(b.rarity);
      CodeInjective(a.rarity, b.rarity);
      assert ka[|ka| - 2..] == Pad2(a.tier);
      assert kb[|kb| - 2..] == Pad2(b.tier);
      Pad2Injective(a.tier, b.tier);
    }
  }

  /**
   * A key is its own case-insensitive fold, so the `OrdinalIgnoreCase`
   * dictionary the table is built in behaves as a plain map on these keys.
   */
  lemma KeysAreFolded(s: Slot)
    requires ValidTier(s.tier)
    ensures Fold(Key(s)) == Key(s)
  {
    var c, k := Code(s.rarity), Key(s);
    assert k == c + "_T" + Pad2(s.tier);
    forall i | 0 <= i < |k| ensures FoldChar(k[i]) == k[i] {
      if i >= |c| + 2 {
        assert k[i] == Pad2(s.tier)[i - |c| - 2];
      }
    }
  }

  lemma RowNameInjective(prefix: string)
    ensures forall a: Slot, b: Slot :: ValidTier(a.tier) && ValidTier(b.tier) && RowName(prefix, a) == RowName(prefix, b) ==> a == b
  {
    KeyInjective();
    forall a: Slot, b: Slot | ValidTier(a.tier) && ValidTier(b.tier) && RowName(prefix, a) == RowName(prefix, b)
      ensures a == b
    {
      var n := RowName(prefix, a);
      assert Key(a) == n[|prefix| + 1..] == Key(b);
    }
  }

  /** Row names carry the prefix and the zero-padded tier; keys drop the prefix. */
  lemma RowNameExamples()
    ensures RowName("Default", Slot(C, 1)) == "Default_C_T01" && Key(Slot(C, 1)) == "C_T01"
    ensures RowName("Manager", Slot(SR, 3)) == "Manager_SR_T03" && Key(Slot(SR, 3)) == "SR_T03"
    ensures Key(Slot(UR, 5)) == "UR_T05"
  {
  }

  // ---------------------------------------------------------------------------
  // The specification of a table
  // ---------------------------------------------------------------------------

  /** Whether the builder visits slot `s`: a tier up to the rarity's maximum, UR only without skipUR. */
  predicate Visits(s: Slot, skipUR: bool)
  {
    1 <= s.tier <= MaxTier(s.rarity) && !(skipUR && s.rarity == UR)
  }

  predicate Skipped(r: Rarity, skipUR: bool) { skipUR && r == UR }

  /** Tiers 1..n of rarity `r`, in ascending order. */
  function TiersOf(r: Rarity, n: nat): seq<Slot>
  {
    seq(n, k requires 0 <= k < n => Slot(r, k + 1))
  }

  /** The slots of the first `i` rarities, in the order the builder visits them. */
  function Order(skipUR: bool, i: nat): seq<Slot>
    requires i <= |AllRarities|
  {
    if i == 0 then []
    else
      Order(skipUR, i - 1) + RaritySlots(AllRarities[i - 1], skipUR)
  }

  /** The slots of one rarity, in the order the builder visits them. */
  function RaritySlots(r: Rarity, skipUR: bool): seq<Slot>
  {
    if Skipped(r, skipUR) then [] else TiersOf(r, MaxTier(r))
  }

  lemma RaritySlotsFacts(r: Rarity, skipUR: bool)
    ensures TiersInRange(RaritySlots(r, skipUR))
    ensures forall k :: 0 <= k < |RaritySlots(r, skipUR)| ==> RaritySlots(r, skipUR)[k].rarity == r
    ensures forall s: Slot :: s in RaritySlots(r, skipUR) <==> s.rarity == r && Visits(s, skipUR)
  {
    var tail := RaritySlots(r, skipUR);
    assert MaxTier(r) <= |TierLevels| by {
      assert RarityTiers[Ordinal(r)].maxTier <= 5;
    }
    forall s: Slot | s.rarity == r && Visits(s, skipUR) ensures s in tail {
      assert tail[s.tier - 1] == s;
    }
  }

  /** Every slot the builder visits, in order. */
  function Visited(skipUR: bool): seq<Slot>
  {
    Order(skipUR, |AllRarities|)
  }

  /** The curve sampled at each level of [lo, hi], in ascending level order. */
  function Samples<V>(curve: int -> V, lo: int, hi: int): (r: seq<V>)
    requires lo <= hi + 1
    ensures |r| == hi - lo + 1
    decreases hi - lo
  {
    if lo > hi then [] else Samples(curve, lo, hi - 1) + [curve(hi)]
  }

  /** The i-th sample is the curve at level lo + i. */
  lemma {:induction false} SamplesAt<V>(curve: int -> V, lo: int, hi: int)
    requires lo <= hi + 1
    ensures forall i :: 0 <= i < hi - lo + 1 ==> Samples(curve, lo, hi)[i] == curve(lo + i)
    decreases hi - lo
  {
    if lo <= hi {
      SamplesAt(curve, lo, hi - 1);
    }
  }

  /** The tier entry a present row contributes: its first level and its samples over the tier's range. */
  function Entry<V>(curve: int -> V, tier: nat): ItemRatingTier<V>
    requires 1 <= tier <= |TierLevels|
  {
    var tl := LevelRange(tier);
    ItemRatingTier(tl.minLevel, Samples(curve, tl.minLevel, tl.maxLevel))
  }

  predicate Present<V>(ct: CurveTable<V>, prefix: string, s: Slot)
    requires ValidTier(s.tier)
  {
    FindCurve(ct, RowName(prefix, s)).Some?
  }

  predicate TiersInRange(slots: seq<Slot>)
  {
    forall i :: 0 <= i < |slots| ==> 1 <= slots[i].tier <= |TierLevels|
  }

  /** Whether filing slot `s` adds a key: its tier is in the tier-level table and its row has a curve. */
  predicate Contributes<V>(ct: CurveTable<V>, prefix: string, s: Slot)
  {
    1 <= s.tier <= |TierLevels| && Present(ct, prefix, s)
  }

  /** Filing one slot: its samples under its key when it contributes, otherwise nothing. */
  function Step<V>(ct: CurveTable<V>, prefix: string, s: Slot, t: ItemRatingTable<V>): ItemRatingTable<V>
  {
    if Contributes(ct, prefix, s) then t[Key(s) := Entry(FindCurve(ct, RowName(prefix, s)).value, s.tier)]
    else t
  }

  /** The table that filing `slots`, one after the other, produces. */
  function Build<V>(ct: CurveTable<V>, prefix: string, slots: seq<Slot>): ItemRatingTable<V>
  {
    if slots == [] then map[]
    else Step(ct, prefix, slots[|slots| - 1], Build(ct, prefix, slots[..|slots| - 1]))
  }

  lemma {:induction false} OrderFacts(skipUR: bool, i: nat)
    requires i <= |AllRarities|
    ensures TiersInRange(Order(skipUR, i))
    ensures forall k :: 0 <= k < |Order(skipUR, i)| ==> Ordinal(Order(skipUR, i)[k].rarity) < i
    ensures forall s: Slot :: s in Order(skipUR, i) <==> Ordinal(s.rarity) < i && Visits(s, skipUR)
  {
    if i > 0 {
      OrderFacts(skipUR, i - 1);
      var r := AllRarities[i - 1];
      assert Ordinal(r) == i - 1;
      RaritySlotsFacts(r, skipUR);
      forall s: Slot | Ordinal(s.rarity) == i - 1 ensures s.rarity == r {
        assert AllRarities[Ordinal(s.rarity)] == s.rarity;
      }
    }
  }

  /** No rarity comes in more tiers than the tier-level table has. */
  lemma MaxTierBound(r: Rarity)
    ensures MaxTier(r) <= |TierLevels|
  {
    assert RarityTiers[Ordinal(r)].maxTier <= 5;
  }

  /** What `EvaluateItemRatingCurve(curveTable, prefix, skipUR)` returns. */
  function Expected<V>(ct: CurveTable<V>, prefix: string, skipUR: bool): ItemRatingTable<V>
  {
    Build(ct, prefix, Visited(skipUR))
  }

  // ---------------------------------------------------------------------------
  // The builder
  // ---------------------------------------------------------------------------

  /** Evaluates `curve` at every level from `minLevel` to `maxLevel` inclusive. */
  method SampleCurve<V>(curve: int -> V, minLevel: int, maxLevel: int) returns (values: seq<V>)
    requires minLevel <= maxLevel + 1
    ensures values == Samples(curve, minLevel, maxLevel)
  {
    values := [];
    var level := minLevel;
    while level <= maxLevel
      invariant minLevel <= level <= maxLevel + 1
      invariant values == Samples(curve, minLevel, level - 1)
    {
      values := values + [curve(level)];
      level := level + 1;
    }
  }

  /** Only contributing slots of `slots` have keys in the table built from them. */
  lemma {:induction false} BuildKeys<V>(ct: CurveTable<V>, prefix: string, slots: seq<Slot>, s: Slot)
    requires ValidTier(s.tier)
    ensures Key(s) in Build(ct, prefix, slots) <==> s in slots && Contributes(ct, prefix, s)
    ensures Key(s) in Build(ct, prefix, slots) ==>
      s.tier <= |TierLevels| && Build(ct, prefix, slots)[Key(s)] == Entry(FindCurve(ct, RowName(prefix, s)).value, s.tier)
  {
    if slots != [] {
      var last, init := slots[|slots| - 1], slots[..|slots| - 1];
      assert slots == init + [last];
      BuildKeys(ct, prefix, init, s);
      KeyInjective();
    }
  }

  /** Every key of a built table is the key of a contributing slot. */
  lemma {:induction false} BuildKeyOrigin<V>(ct: CurveTable<V>, prefix: string, slots: seq<Slot>, k: string) returns (s: Slot)
    requires k in Build(ct, prefix, slots)
    ensures s in slots && Contributes(ct, prefix, s) && Key(s) == k
  {
    var last, init := slots[|slots| - 1], slots[..|slots| - 1];
    assert slots == init + [last];
    if Contributes(ct, prefix, last) && k == Key(last) {
      s := last;
    } else {
      s := BuildKeyOrigin(ct, prefix, init, k);
    }
  }

  lemma TiersOfFacts(r: Rarity, j: nat)
    ensures |TiersOf(r, j)| == j
    ensures forall k :: 0 <= k < j ==> TiersOf(r, j)[k] == Slot(r, k + 1)
    ensures TiersOf(r, j + 1) == TiersOf(r, j) + [Slot(r, j + 1)]
  {
  }

  /** After the last tier of rarity `i`, everything up to rarity `i + 1` has been filed. */
  lemma OuterStep(skipUR: bool, i: nat)
    requires i < |AllRarities|
    ensures Skipped(AllRarities[i], skipUR) ==> Order(skipUR, i + 1) == Order(skipUR, i)
    ensures !Skipped(AllRarities[i], skipUR) ==> Order(skipUR, i + 1) == Order(skipUR, i) + TiersOf(AllRarities[i], MaxTier(AllRarities[i]))
  {
  }

  /** Filing tiers 1 to `j` of rarity `r`, in ascending order, on top of table `t`. */
  function Walk<V>(ct: CurveTable<V>, prefix: string, r: Rarity, j: nat, t: ItemRatingTable<V>): ItemRatingTable<V>
  {
    if j == 0 then t else Step(ct, prefix, Slot(r, j), Walk(ct, prefix, r, j - 1, t))
  }

  /** The table after the first `i` rarities have been walked. */
  function Filed<V>(ct: CurveTable<V>, prefix: string, skipUR: bool, i: nat): ItemRatingTable<V>
    requires i <= |AllRarities|
  {
    if i == 0 then map[]
    else
      var r := AllRarities[i - 1];
      if Skipped(r, skipUR) then Filed(ct, prefix, skipUR, i - 1)
      else Walk(ct, prefix, r, MaxTier(r), Filed(ct, prefix, skipUR, i - 1))
  }

  /** Filing one more slot is one more step of the builder. */
  lemma BuildSnoc<V>(ct: CurveTable<V>, prefix: string, slots: seq<Slot>, s: Slot)
    ensures Build(ct, prefix, slots + [s]) == Step(ct, prefix, s, Build(ct, prefix, slots))
  {
    assert (slots + [s])[..|slots|] == slots;
  }

  /** Walking the tiers of a rarity extends the builder's run by those slots. */
  lemma {:induction false} WalkIsBuild<V>(ct: CurveTable<V>, prefix: string, r: Rarity, j: nat, slots: seq<Slot>)
    ensures Walk(ct, prefix, r, j, Build(ct, prefix, slots)) == Build(ct, prefix, slots + TiersOf(r, j))
  {
    if j == 0 {
      assert slots + TiersOf(r, 0) == slots;
    } else {
      WalkIsBuild(ct, prefix, r, j - 1, slots);
      TiersOfFacts(r, j - 1);
      assert slots + TiersOf(r, j) == (slots + TiersOf(r, j - 1)) + [Slot(r, j)];
      BuildSnoc(ct, prefix, slots + TiersOf(r, j - 1), Slot(r, j));
    }
  }

  /** Walking the first `i` rarities is the builder run over their slots. */
  lemma {:induction false} FiledIsBuild<V>(ct: CurveTable<V>, prefix: string, skipUR: bool, i: nat)
    requires i <= |AllRarities|
    ensures Filed(ct, prefix, skipUR, i) == Build(ct, prefix, Order(skipUR, i))
  {
    if i > 0 {
      FiledIsBuild(ct, prefix, skipUR, i - 1);
      if Skipped(AllRarities[i - 1], skipUR) {
        SkippedStep(ct, prefix, skipUR, i);
      } else {
        WalkedStep(ct, prefix, skipUR, i);
      }
    }
  }

  /** A skipped rarity adds neither slots nor entries. */
  lemma SkippedStep<V>(ct: CurveTable<V>, prefix: string, skipUR: bool, i: nat)
    requires 0 < i <= |AllRarities| && Skipped(AllRarities[i - 1], skipUR)
    requires Filed(ct, prefix, skipUR, i - 1) == Build(ct, prefix, Order(skipUR, i - 1))
    ensures Filed(ct, prefix, skipUR, i) == Build(ct, prefix, Order(skipUR, i))
  {
    OuterStep(skipUR, i - 1);
  }

  /** Walking a rarity's tiers files the same slots the builder appends for it. */
  lemma WalkedStep<V>(ct: CurveTable<V>, prefix: string, skipUR: bool, i: nat)
    requires 0 < i <= |AllRarities| && !Skipped(AllRarities[i - 1], skipUR)
    requires Filed(ct, prefix, skipUR, i - 1) == Build(ct, prefix, Order(skipUR, i - 1))
    ensures Filed(ct, prefix, skipUR, i) == Build(ct, prefix, Order(skipUR, i))
  {
    var r := AllRarities[i - 1];
    OuterStep(skipUR, i - 1);
    WalkIsBuild(ct, prefix, r, MaxTier(r), Order(skipUR, i - 1));
  }

  /** No tier of rarity `r` above `j` has its key in table `t` yet. */
  predicate FreshFrom<V>(t: ItemRatingTable<V>, r: Rarity, j: nat)
  {
    forall n :: j < n <= |TierLevels| ==> Key(Slot(r, n)) !in t
  }

  /** Filing tier `j + 1` of rarity `r` leaves the keys of the higher tiers free. */
  lemma StepKeepsFresh<V>(ct: CurveTable<V>, prefix: string, r: Rarity, j: nat, t: ItemRatingTable<V>)
    requires j < |TierLevels| && FreshFrom(t, r, j)
    ensures Key(Slot(r, j + 1)) !in t
    ensures FreshFrom(Step(ct, prefix, Slot(r, j + 1), t), r, j + 1)
  {
    KeyInjective();
  }

  /** Before rarity `i` is walked, none of its keys is in the table. */
  lemma FiledFresh<V>(ct: CurveTable<V>, prefix: string, skipUR: bool, i: nat)
    requires i < |AllRarities|
    ensures FreshFrom(Filed(ct, prefix, skipUR, i), AllRarities[i], 0)
  {
    var r, order := AllRarities[i], Order(skipUR, i);
    OrderFacts(skipUR, i);
    assert Ordinal(r) == i;
    forall n | 0 < n <= |TierLevels| ensures Key(Slot(r, n)) !in Build(ct, prefix, order) {
      assert Slot(r, n) !in order;
      BuildKeys(ct, prefix, order, Slot(r, n));
    }
    FiledIsBuild(ct, prefix, skipUR, i);
  }

  /** Row `i` of the rarity-tier table is the `i`-th rarity and its maximum tier. */
  lemma RarityRow(i: nat)
    requires i < |RarityTiers|
    ensures i < |AllRarities| && RarityTiers[i].rarity == AllRarities[i]
    ensures RarityTiers[i].maxTier == MaxTier(AllRarities[i]) <= |TierLevels|
  {
    MaxTierBound(AllRarities[i]);
  }

  /** Row `j` of the tier-level table is tier `j + 1` and its level range. */
  lemma TierRow(j: nat)
    requires j < |TierLevels|
    ensures TierLevels[j].tier == j + 1 && LevelRange(j + 1) == TierLevels[j]
    ensures TierLevels[j].minLevel <= TierLevels[j].maxLevel
  {
  }

  /**
   * One step of the inner loop of `EvaluateItemRatingCurve`: tier `j + 1` of
   * rarity `i`. The row "{prefix}_{rarity}_T{tier:00}" is looked up by exact
   * name; when it is present and has a curve, the curve is sampled at every
   * level of the tier's range and filed under "{rarity}_T{tier:00}".
   */
  method EvaluateTier<V>(ct: CurveTable<V>, prefix: string, i: nat, j: nat, before: ItemRatingTable<V>)
    returns (tiers: ItemRatingTable<V>)
    requires i < |RarityTiers| && j < |TierLevels|
    // `Dictionary.Add` throws on a duplicate key
    requires Key(Slot(AllRarities[i], j + 1)) !in before
    ensures tiers == Step(ct, prefix, Slot(AllRarities[i], j + 1), before)
  {
    RarityRow(i);
    TierRow(j);
    var rarity, tier, minLevel, maxLevel := RarityTiers[i].rarity, TierLevels[j].tier, TierLevels[j].minLevel, TierLevels[j].maxLevel;
    var slot := Slot(rarity, tier);
    var rowName := RowName(prefix, slot);
    if rowName !in ct.rowMap {
      // the row is missing: the key is left out
      return before;
    }
    var curve := ct.rowMap[rowName];
    if curve.None? {
      // the row's curve cannot be found: the key is left out
      return before;
    }
    var values := SampleCurve(curve.value, minLevel, maxLevel);
    var key := Key(slot);
    tiers := before[key := ItemRatingTier(minLevel, values)];
  }

  /**
   * The inner loop of `EvaluateItemRatingCurve` for rarity `i`: tiers 1 up to
   * the rarity's maximum, filed on top of `filed`, which holds none of their keys.
   */
  method EvaluateRarity<V>(ct: CurveTable<V>, prefix: string, i: nat, filed: ItemRatingTable<V>)
    returns (tiers: ItemRatingTable<V>)
    requires i < |RarityTiers| && FreshFrom(filed, AllRarities[i], 0)
    ensures tiers == Walk(ct, prefix, AllRarities[i], MaxTier(AllRarities[i]), filed)
  {
    RarityRow(i);
    var maxTier := RarityTiers[i].maxTier;
    tiers := filed;
    var j := 0;
    while j < |TierLevels|
      invariant 0 <= j <= maxTier
      invariant tiers == Walk(ct, prefix, AllRarities[i], j, filed)
      invariant FreshFrom(tiers, AllRarities[i], j)
    {
      TierRow(j);
      if TierLevels[j].tier > maxTier {
        break;
      }
      StepKeepsFresh(ct, prefix, AllRarities[i], j, tiers);
      tiers := EvaluateTier(ct, prefix, i, j, tiers);
      j := j + 1;
    }
    assert j == maxTier == MaxTier(AllRarities[i]);
  }

  /**
   * `EvaluateItemRatingCurve`: walks every rarity, skipping UR when `skipUR`,
   * and files the tiers of each as `EvaluateRarity` does.
   */
  method EvaluateItemRatingCurve<V>(ct: CurveTable<V>, prefix: string, skipUR: bool) returns (tiers: ItemRatingTable<V>)
    ensures tiers == Expected(ct, prefix, skipUR)
  {
    tiers := map[];
    var i := 0;
    while i < |RarityTiers|
      invariant 0 <= i <= |RarityTiers|
      invariant tiers == Filed(ct, prefix, skipUR, i)
    {
      var rarity := RarityTiers[i].rarity;
      RarityStep(ct, prefix, skipUR, i);
      if skipUR && rarity == UR {
        i := i + 1;
        continue;
      }
      tiers := EvaluateRarity(ct, prefix, i, tiers);
      i := i + 1;
    }
    FiledIsExpected(ct, prefix, skipUR);
  }

  /** Rarity `i` is either skipped or walked on top of the rarities before it. */
  lemma FiledNext<V>(ct: CurveTable<V>, prefix: string, skipUR: bool, i: nat)
    requires i < |AllRarities|
    ensures Skipped(AllRarities[i], skipUR) ==> Filed(ct, prefix, skipUR, i + 1) == Filed(ct, prefix, skipUR, i)
    ensures !Skipped(AllRarities[i], skipUR) ==>
      Filed(ct, prefix, skipUR, i + 1) == Walk(ct, prefix, AllRarities[i], MaxTier(AllRarities[i]), Filed(ct, prefix, skipUR, i))
  {
  }

  /** Row `i` of the rarity table is either skipped, leaving the table, or walked on a table that has none of its keys. */
  lemma RarityStep<V>(ct: CurveTable<V>, prefix: string, skipUR: bool, i: nat)
    requires i < |RarityTiers|
    ensures i < |AllRarities| && RarityTiers[i].rarity == AllRarities[i]
    ensures skipUR && RarityTiers[i].rarity == UR ==> Filed(ct, prefix, skipUR, i + 1) == Filed(ct, prefix, skipUR, i)
    ensures !(skipUR && RarityTiers[i].rarity == UR) ==>
      && FreshFrom(Filed(ct, prefix, skipUR, i), AllRarities[i], 0)
      && Filed(ct, prefix, skipUR, i + 1) == Walk(ct, prefix, AllRarities[i], MaxTier(AllRarities[i]), Filed(ct, prefix, skipUR, i))
  {
    RarityRow(i);
    FiledFresh(ct, prefix, skipUR, i);
    FiledNext(ct, prefix, skipUR, i);
  }

  /** Walking every rarity yields the builder's table. */
  lemma FiledIsExpected<V>(ct: CurveTable<V>, prefix: string, skipUR: bool)
    ensures Filed(ct, prefix, skipUR, |AllRarities|) == Expected(ct, prefix, skipUR)
  {
    FiledIsBuild(ct, prefix, skipUR, |AllRarities|);
  }

  // ---------------------------------------------------------------------------
  // What a built table contains
  // ---------------------------------------------------------------------------

  /** A slot has a key in the table iff the builder visits it and its row is present; its entry samples that row. */
  lemma ExpectedKeys<V>(ct: CurveTable<V>, prefix: string, skipUR: bool, s: Slot)
    requires ValidTier(s.tier)
    ensures Key(s) in Expected(ct, prefix, skipUR) <==> Visits(s, skipUR) && Present(ct, prefix, s)
    ensures Key(s) in Expected(ct, prefix, skipUR) ==>
      s.tier <= |TierLevels| && Expected(ct, prefix, skipUR)[Key(s)] == Entry(FindCurve(ct, RowName(prefix, s)).value, s.tier)
  {
    OrderFacts(skipUR, |AllRarities|);
    BuildKeys(ct, prefix, Visited(skipUR), s);
  }

  /** Every key of the table belongs to a visited slot whose row is present. */
  lemma ExpectedKeyOrigin<V>(ct: CurveTable<V>, prefix: string, skipUR: bool, k: string) returns (s: Slot)
    requires k in Expected(ct, prefix, skipUR)
    ensures ValidTier(s.tier) && Visits(s, skipUR) && Present(ct, prefix, s) && Key(s) == k
  {
    OrderFacts(skipUR, |AllRarities|);
    s := BuildKeyOrigin(ct, prefix, Visited(skipUR), k);
  }

  /** No key names a tier above its rarity's maximum: there is never a C_T03. */
  lemma NoTierAboveMax<V>(ct: CurveTable<V>, prefix: string, skipUR: bool, r: Rarity, t: nat)
    requires MaxTier(r) < t < 100
    ensures Key(Slot(r, t)) !in Expected(ct, prefix, skipUR)
  {
    ExpectedKeys(ct, prefix, skipUR, Slot(r, t));
  }

  /** Only UR keys start with "UR_": the first two characters of a key are its rarity code, or the code and '_'. */
  lemma URKeyPrefix(s: Slot)
    requires ValidTier(s.tier) && s.rarity != UR
    ensures !(|Key(s)| >= 3 && Key(s)[..3] == "UR_")
  {
    var c, k := Code(s.rarity), Key(s);
    assert k == c + ("_T" + Pad2(s.tier));
    assert k[0] == c[0];
    assert k[1] == if |c| == 2 then c[1] else '_';
  }

  /** With skipUR no key starts with "UR_". */
  lemma SkipURHasNoURKeys<V>(ct: CurveTable<V>, prefix: string, k: string)
    requires k in Expected(ct, prefix, true)
    ensures !(|k| >= 3 && k[..3] == "UR_")
  {
    var s := ExpectedKeyOrigin(ct, prefix, true, k);
    URKeyPrefix(s);
  }

  /**
   * Each entry starts at its tier's lowest level, holds one rating per level
   * of the tier's range, and its i-th rating is the curve of row
   * "{prefix}_{key}" at level firstLevel + i.
   */
  lemma EntryShape<V>(ct: CurveTable<V>, prefix: string, skipUR: bool, k: string)
    requires k in Expected(ct, prefix, skipUR)
    ensures FindCurve(ct, prefix + "_" + k).Some?
    ensures var e := Expected(ct, prefix, skipUR)[k];
      && (exists t :: 1 <= t <= |TierLevels| && e.firstLevel == LevelRange(t).minLevel
            && |e.ratings| == LevelRange(t).maxLevel - LevelRange(t).minLevel + 1)
      && forall i :: 0 <= i < |e.ratings| ==> e.ratings[i] == FindCurve(ct, prefix + "_" + k).value(e.firstLevel + i)
  {
    var s := ExpectedKeyOrigin(ct, prefix, skipUR, k);
    ExpectedKeys(ct, prefix, skipUR, s);
    SamplesAt(FindCurve(ct, RowName(prefix, s)).value, LevelRange(s.tier).minLevel, LevelRange(s.tier).maxLevel);
  }

  /** The level ranges give 10, 11, 11, 11 and 21 ratings, and adjacent tiers share a boundary level. */
  lemma TierLevelFacts()
    ensures [LevelRange(1).minLevel, LevelRange(2).minLevel, LevelRange(3).minLevel, LevelRange(4).minLevel, LevelRange(5).minLevel]
         == [1, 10, 20, 30, 40]
    ensures forall t :: 1 <= t <= |TierLevels| ==>
      LevelRange(t).maxLevel - LevelRange(t).minLevel + 1 == [10, 11, 11, 11, 21][t - 1]
    ensures forall t :: 1 <= t < |TierLevels| ==> LevelRange(t).maxLevel == LevelRange(t + 1).minLevel
  {
  }

  /** The last level tier t covers is the first level tier t + 1 covers, e.g. level 10 is in T01 and T02. */
  lemma AdjacentTiersShareLevel<V>(ct: CurveTable<V>, prefix: string, skipUR: bool, r: Rarity, t: nat)
    requires 1 <= t < |TierLevels|
    requires Key(Slot(r, t)) in Expected(ct, prefix, skipUR) && Key(Slot(r, t + 1)) in Expected(ct, prefix, skipUR)
    ensures var lo, hi := Expected(ct, prefix, skipUR)[Key(Slot(r, t))], Expected(ct, prefix, skipUR)[Key(Slot(r, t + 1))];
      lo.firstLevel + |lo.ratings| - 1 == hi.firstLevel
  {
    ExpectedKeys(ct, prefix, skipUR, Slot(r, t));
    ExpectedKeys(ct, prefix, skipUR, Slot(r, t + 1));
  }

  /**
   * A row that is missing, or whose curve cannot be found, only drops its own
   * key: the table is otherwise the one the complete curve table gives.
   */
  lemma AbsentRowOmitsOnlyItsKey<V>(ct: CurveTable<V>, ct': CurveTable<V>, prefix: string, skipUR: bool, s: Slot)
    requires ValidTier(s.tier)
    requires FindCurve(ct', RowName(prefix, s)).None?
    requires forall n :: n != RowName(prefix, s) ==> FindCurve(ct', n) == FindCurve(ct, n)
    ensures Expected(ct', prefix, skipUR) == Expected(ct, prefix, skipUR) - {Key(s)}
  {
    var e, e' := Expected(ct, prefix, skipUR), Expected(ct', prefix, skipUR);
    var want := e - {Key(s)};
    RowNameInjective(prefix);
    KeyInjective();
    forall k | k in e' ensures k in want && e'[k] == want[k] {
      var s' := ExpectedKeyOrigin(ct', prefix, skipUR, k);
      ExpectedKeys(ct, prefix, skipUR, s');
      ExpectedKeys(ct', prefix, skipUR, s');
    }
    forall k | k in want ensures k in e' {
      var s' := ExpectedKeyOrigin(ct, prefix, skipUR, k);
      ExpectedKeys(ct', prefix, skipUR, s');
    }
    assert e'.Keys == want.Keys;
  }

  // ---------------------------------------------------------------------------
  // Complete curve tables
  // ---------------------------------------------------------------------------

  /** The curve table has a curve for every row the builder looks up (the UR rows are not looked up under skipUR). */
  ghost predicate VisitedRowsPresent<V>(ct: CurveTable<V>, prefix: string, skipUR: bool)
  {
    forall s: Slot :: 1 <= s.tier <= |TierLevels| && Visits(s, skipUR) ==> Present(ct, prefix, s)
  }

  /** No slot occurs twice. */
  predicate Distinct(slots: seq<Slot>)
  {
    forall a, b :: 0 <= a < b < |slots| ==> slots[a] != slots[b]
  }

  lemma DistinctConcat(x: seq<Slot>, y: seq<Slot>)
    requires Distinct(x) && Distinct(y)
    requires forall k :: 0 <= k < |y| ==> y[k] !in x
    ensures Distinct(x + y)
  {
    forall a, b | 0 <= a < b < |x + y| ensures (x + y)[a] != (x + y)[b] {
      if b >= |x| {
        assert (x + y)[b] == y[b - |x|];
        if a >= |x| {
          assert (x + y)[a] == y[a - |x|];
        }
      }
    }
  }

  /** The builder visits no slot twice. */
  lemma {:induction false} OrderDistinct(skipUR: bool, i: nat)
    requires i <= |AllRarities|
    ensures Distinct(Order(skipUR, i))
  {
    if i > 0 {
      OrderDistinct(skipUR, i - 1);
      OrderFacts(skipUR, i - 1);
      var r := AllRarities[i - 1];
      assert Ordinal(r) == i - 1;
      RaritySlotsFacts(r, skipUR);
      TiersOfFacts(r, MaxTier(r));
      DistinctConcat(Order(skipUR, i - 1), RaritySlots(r, skipUR));
    }
  }

  /** Filing distinct slots whose rows are all present gives one key per slot. */
  lemma {:induction false} BuildSize<V>(ct: CurveTable<V>, prefix: string, slots: seq<Slot>)
    requires TiersInRange(slots)
    requires Distinct(slots)
    requires forall i :: 0 <= i < |slots| ==> Present(ct, prefix, slots[i])
    ensures |Build(ct, prefix, slots)| == |slots|
  {
    if slots != [] {
      var last, init := slots[|slots| - 1], slots[..|slots| - 1];
      assert slots == init + [last];
      BuildSize(ct, prefix, init);
      BuildKeys(ct, prefix, init, last);
    }
  }

  lemma VisitedCounts()
    ensures |Visited(false)| == 24 && |Visited(true)| == 19
  {
    assert |Order(false, 1)| == 2 && |Order(true, 1)| == 2;
    assert |Order(false, 2)| == 5 && |Order(true, 2)| == 5;
    assert |Order(false, 3)| == 9 && |Order(true, 3)| == 9;
    assert |Order(false, 4)| == 14 && |Order(true, 4)| == 14;
    assert |Order(false, 5)| == 19 && |Order(true, 5)| == 19;
  }

  lemma ExpectedSize<V>(ct: CurveTable<V>, prefix: string, skipUR: bool)
    requires VisitedRowsPresent(ct, prefix, skipUR)
    ensures |Expected(ct, prefix, skipUR)| == |Visited(skipUR)|
  {
    OrderFacts(skipUR, |AllRarities|);
    OrderDistinct(skipUR, |AllRarities|);
    BuildSize(ct, prefix, Visited(skipUR));
  }

  /** The maximum tier of each rarity, C to UR. */
  lemma MaxTiers()
    ensures [MaxTier(C), MaxTier(UC), MaxTier(R), MaxTier(VR), MaxTier(SR), MaxTier(UR)] == [2, 3, 4, 5, 5, 5]
  {
  }

  /**
   * A curve table with every row the builder looks up gives 24 keys: for every rarity, T01 up to that
   * rarity's maximum tier (C_T01..C_T02, UC_T01..UC_T03, R_T01..R_T04 and T01..T05
   * of VR, SR and UR), and no other key.
   */
  lemma CompleteTable<V>(ct: CurveTable<V>, prefix: string)
    requires VisitedRowsPresent(ct, prefix, false)
    ensures forall r: Rarity, t: nat :: ValidTier(t) ==> (Key(Slot(r, t)) in Expected(ct, prefix, false) <==> t <= MaxTier(r))
    ensures forall k :: k in Expected(ct, prefix, false) ==> exists s: Slot :: 1 <= s.tier <= MaxTier(s.rarity) && Key(s) == k
    ensures |Expected(ct, prefix, false)| == 24
  {
    forall r: Rarity, t: nat | ValidTier(t) ensures Key(Slot(r, t)) in Expected(ct, prefix, false) <==> t <= MaxTier(r) {
      ExpectedKeys(ct, prefix, false, Slot(r, t));
    }
    forall k | k in Expected(ct, prefix, false) ensures exists s: Slot :: 1 <= s.tier <= MaxTier(s.rarity) && Key(s) == k {
      var s := ExpectedKeyOrigin(ct, prefix, false, k);
    }
    ExpectedSize(ct, prefix, false);
    VisitedCounts();
  }

  /**
   * With skipUR (the lead-survivor table, which has no UR rows) and every row
   * the builder looks up, the table has 19 keys: the ones above without
   * UR_T01..UR_T05.
   */
  lemma CompleteTableWithoutUR<V>(ct: CurveTable<V>, prefix: string)
    requires VisitedRowsPresent(ct, prefix, true)
    ensures forall r: Rarity, t: nat :: ValidTier(t) ==> (Key(Slot(r, t)) in Expected(ct, prefix, true) <==> r != UR && t <= MaxTier(r))
    ensures forall k :: k in Expected(ct, prefix, true) ==> exists s: Slot :: s.rarity != UR && 1 <= s.tier <= MaxTier(s.rarity) && Key(s) == k
    ensures |Expected(ct, prefix, true)| == 19
  {
    forall r: Rarity, t: nat | ValidTier(t) ensures Key(Slot(r, t)) in Expected(ct, prefix, true) <==> r != UR && t <= MaxTier(r) {
      ExpectedKeys(ct, prefix, true, Slot(r, t));
    }
    forall k | k in Expected(ct, prefix, true) ensures exists s: Slot :: s.rarity != UR && 1 <= s.tier <= MaxTier(s.rarity) && Key(s) == k {
      var s := ExpectedKeyOrigin(ct, prefix, true, k);
    }
    ExpectedSize(ct, prefix, true);
    VisitedCounts();
  }

  // ---------------------------------------------------------------------------
  // The exporter around the builder
  // ---------------------------------------------------------------------------

  const AssetSuffix := "ItemRating.uasset"

  /** `InterestedInAsset`: the asset name ends with "ItemRating.uasset", ignoring case. */
  function InterestedInAsset(name: string): (b: bool)
    ensures b <==> |name| >= 17 && Fold(name[|name| - 17..]) == "ITEMRATING.UASSET"
  {
    assert Fold(AssetSuffix) == "ITEMRATING.UASSET";
    EndsWithIgnoreCase(name, AssetSuffix)
  }

  /** Any casing of the suffix qualifies; a name ending in another extension does not. */
  lemma InterestedInAssetFacts(dir: string)
    ensures InterestedInAsset(dir + "ItemRating.uasset") && InterestedInAsset(dir + "ITEMRATING.uasset")
    ensures !InterestedInAsset("BaseItemRating.uexp")
  {
    var n := dir + "ITEMRATING.uasset";
    assert n[|n| - 17..] == "ITEMRATING.uasset";
    assert Fold("ITEMRATING.uasset") == "ITEMRATING.UASSET";
    var m := dir + "ItemRating.uasset";
    assert m[|m| - 17..] == "ItemRating.uasset";
    assert Fold("ItemRating.uasset") == "ITEMRATING.UASSET";
    var b := "BaseItemRating.uexp";
    assert Fold(b[|b| - 17..])[0] == 'S';
  }

  /**
   * The tables the exporter hands on: the default table from BaseItemRating
   * ("Default" rows, all rarities), and from SurvivorItemRating the survivor
   * table ("Default" rows) and the lead-survivor table ("Manager" rows, no UR).
   * A curve table that was not found or could not be loaded contributes no table.
   */
  method ExportItemRatings<V>(baseItemRating: Option<CurveTable<V>>, survivorItemRating: Option<CurveTable<V>>)
    returns (default: Option<ItemRatingTable<V>>, survivor: Option<ItemRatingTable<V>>, leadSurvivor: Option<ItemRatingTable<V>>)
    ensures default == if baseItemRating.Some? then Some(Expected(baseItemRating.value, "Default", false)) else None
    ensures survivor == if survivorItemRating.Some? then Some(Expected(survivorItemRating.value, "Default", false)) else None
    ensures leadSurvivor == if survivorItemRating.Some? then Some(Expected(survivorItemRating.value, "Manager", true)) else None
  {
    default, survivor, leadSurvivor := None, None, None;
    if baseItemRating.Some? {
      var t := EvaluateItemRatingCurve(baseItemRating.value, "Default", false);
      default := Some(t);
    }
    if survivorItemRating.Some? {
      var t := EvaluateItemRatingCurve(survivorItemRating.value, "Default", false);
      survivor := Some(t);
      var lead := EvaluateItemRatingCurve(survivorItemRating.value, "Manager", true);
      leadSurvivor := Some(lead);
    }
  }
}
