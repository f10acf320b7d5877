/** The `trades` catalogue of trades.py as a constant, and what compiling
    it yields: the six sections in dict order, their index ranges, the
    number of lines of both outputs, and the two mycelium offers that share
    one guard key. */
module TradeCatalogue {
  import opened Wrappers
  import opened Trades
  import opened Catalogue
  import opened GenerateTrades

  /** `json.dumps(0.05)`, the price multiplier of every trade. */
  const Price: FloatRepr := "0.05"

  /** The "Buys" entry. */
  const BuysSection := Section("Buys", 1, 1, [
    Trade("minecraft:baked_potato", 4, "minecraft:emerald", 1, Price, 4, 1),
    Trade("minecraft:feather", 12, "minecraft:emerald", 1, Price, 4, 1),
    Trade("minecraft:hay_block", 1, "minecraft:emerald", 1, Price, 4, 1),
    Trade("minecraft:ink_sac", 8, "minecraft:emerald", 1, Price, 4, 1),
    Trade("minecraft:leather", 4, "minecraft:emerald", 1, Price, 4, 1),
    Trade("minecraft:pumpkin", 4, "minecraft:emerald", 1, Price, 4, 1),
    Trade("minecraft:slime_ball", 4, "minecraft:emerald", 1, Price, 4, 1),
    Trade("minecraft:string", 8, "minecraft:emerald", 1, Price, 4, 1),
    Trade("minecraft:sugar_cane", 16, "minecraft:emerald", 1, Price, 4, 1)
  ])

  /** The "Trades" entry. */
  const TradesSection := Section("Trades", 1, 2, [
    Trade("minecraft:acacia_planks", 4, "minecraft:acacia_log", 1, Price, 8, 1),
    Trade("minecraft:birch_planks", 4, "minecraft:birch_log", 1, Price, 8, 1),
    Trade("minecraft:cherry_planks", 4, "minecraft:cherry_log", 1, Price, 8, 1),
    Trade("minecraft:clay_ball", 1, "minecraft:brick", 1, Price, 16, 1),
    Trade("minecraft:coal", 1, "minecraft:torch", 8, Price, 4, 1),
    Trade("minecraft:cobblestone", 5, "minecraft:stone", 4, Price, 4, 1),
    Trade("minecraft:dark_oak_planks", 4, "minecraft:dark_oak_log", 1, Price, 8, 1),
    Trade("minecraft:gravel", 2, "minecraft:dirt", 1, Price, 64, 1),
    Trade("minecraft:gravel", 2, "minecraft:flint", 1, Price, 4, 1),
    Trade("minecraft:jungle_planks", 4, "minecraft:jungle_log", 1, Price, 8, 1),
    Trade("minecraft:mangrove_planks", 4, "minecraft:mangrove_log", 1, Price, 8, 1),
    Trade("minecraft:oak_planks", 4, "minecraft:oak_log", 1, Price, 8, 1),
    Trade("minecraft:pale_oak_planks", 4, "minecraft:pale_oak_log", 1, Price, 8, 1),
    Trade("minecraft:pumpkin", 2, "minecraft:pumpkin_pie", 1, Price, 8, 1),
    Trade("minecraft:rotten_flesh", 4, "minecraft:leather", 1, Price, 16, 1),
    Trade("minecraft:spruce_planks", 4, "minecraft:spruce_log", 1, Price, 8, 1),
    Trade("minecraft:wheat_seeds", 8, "minecraft:wheat", 1, Price, 8, 1),
    Trade("minecraft:wheat", 2, "minecraft:bread", 1, Price, 16, 1)
  ])

  /** The "Dyes" entry. */
  const DyesSection := Section("Dyes", 1, 2, [
    Trade("minecraft:emerald", 1, "minecraft:black_dye", 8, Price, 2, 1),
    Trade("minecraft:emerald", 1, "minecraft:blue_dye", 8, Price, 2, 1),
    Trade("minecraft:emerald", 1, "minecraft:brown_dye", 8, Price, 2, 1),
    Trade("minecraft:emerald", 1, "minecraft:cyan_dye", 8, Price, 2, 1),
    Trade("minecraft:emerald", 1, "minecraft:gray_dye", 8, Price, 2, 1),
    Trade("minecraft:emerald", 1, "minecraft:green_dye", 8, Price, 2, 1),
    Trade("minecraft:emerald", 1, "minecraft:light_blue_dye", 8, Price, 2, 1),
    Trade("minecraft:emerald", 1, "minecraft:light_gray_dye", 8, Price, 2, 1),
    Trade("minecraft:emerald", 1, "minecraft:lime_dye", 8, Price, 2, 1),
    Trade("minecraft:emerald", 1, "minecraft:magenta_dye", 8, Price, 2, 1),
    Trade("minecraft:emerald", 1, "minecraft:orange_dye", 8, Price, 2, 1),
    Trade("minecraft:emerald", 1, "minecraft:pink_dye", 8, Price, 2, 1),
    Trade("minecraft:emerald", 1, "minecraft:purple_dye", 8, Price, 2, 1),
    Trade("minecraft:emerald", 1, "minecraft:red_dye", 8, Price, 2, 1),
    Trade("minecraft:emerald", 1, "minecraft:white_dye", 8, Price, 4, 1),
    Trade("minecraft:emerald", 1, "minecraft:yellow_dye", 8, Price, 2, 1)
  ])

  /** The "Saplings" entry. */
  const SaplingsSection := Section("Saplings", 1, 1, [
    Trade("minecraft:emerald", 1, "minecraft:acacia_sapling", 8, Price, 4, 1),
    Trade("minecraft:emerald", 1, "minecraft:birch_sapling", 8, Price, 4, 1),
    Trade("minecraft:emerald", 1, "minecraft:cherry_sapling", 8, Price, 4, 1),
    Trade("minecraft:emerald", 1, "minecraft:dark_oak_sapling", 8, Price, 4, 1),
    Trade("minecraft:emerald", 1, "minecraft:jungle_sapling", 8, Price, 4, 1),
    Trade("minecraft:emerald", 1, "minecraft:mangrove_propagule", 8, Price, 4, 1),
    Trade("minecraft:emerald", 1, "minecraft:oak_sapling", 8, Price, 4, 1),
    Trade("minecraft:emerald", 1, "minecraft:pale_oak_sapling", 8, Price, 4, 1),
    Trade("minecraft:emerald", 1, "minecraft:spruce_sapling", 8, Price, 4, 1)
  ])

  /** The "Plants" entry. */
  const PlantsSection := Section("Plants", 1, 3, [
    Trade("minecraft:emerald", 1, "minecraft:beetroot_seeds", 16, Price, 4, 1),
    Trade("minecraft:emerald", 1, "minecraft:brown_mushroom", 8, Price, 4, 1),
    Trade("minecraft:emerald", 1, "minecraft:bush", 8, Price, 4, 1),
    Trade("minecraft:emerald", 1, "minecraft:cactus", 8, Price, 4, 1),
    Trade("minecraft:emerald", 1, "minecraft:carrot", 16, Price, 4, 1),
    Trade("minecraft:emerald", 1, "minecraft:fern", 16, Price, 4, 1),
    Trade("minecraft:emerald", 1, "minecraft:firefly_bush", 8, Price, 4, 1),
    Trade("minecraft:emerald", 1, "minecraft:kelp", 16, Price, 4, 1),
    Trade("minecraft:emerald", 1, "minecraft:lily_pad", 8, Price, 4, 1),
    Trade("minecraft:emerald", 1, "minecraft:melon_seeds", 16, Price, 4, 1),
    Trade("minecraft:emerald", 1, "minecraft:moss_block", 4, Price, 4, 1),
    Trade("minecraft:emerald", 1, "minecraft:pale_moss_block", 4, Price, 4, 1),
    Trade("minecraft:emerald", 1, "minecraft:potato", 16, Price, 4, 1),
    Trade("minecraft:emerald", 1, "minecraft:pumpkin_seeds", 16, Price, 4, 1),
    Trade("minecraft:emerald", 1, "minecraft:pumpkin", 4, Price, 4, 1),
    Trade("minecraft:emerald", 1, "minecraft:red_mushroom", 8, Price, 4, 1),
    Trade("minecraft:emerald", 1, "minecraft:small_dripleaf", 8, Price, 4, 1),
    Trade("minecraft:emerald", 1, "minecraft:sugar_cane", 16, Price, 4, 1),
    Trade("minecraft:emerald", 1, "minecraft:vines", 8, Price, 4, 1),
    Trade("minecraft:emerald", 1, "minecraft:wheat_seeds", 16, Price, 4, 1)
  ])

  /** The "Generic" entry. */
  const GenericSection := Section("Generic", 1, 2, [
    Trade("minecraft:emerald", 1, "minecraft:acacia_log", 16, Price, 2, 1),
    Trade("minecraft:emerald", 1, "minecraft:birch_log", 16, Price, 2, 1),
    Trade("minecraft:emerald", 1, "minecraft:blue_ice", 2, Price, 16, 1),
    Trade("minecraft:emerald", 1, "minecraft:brain_coral_block", 4, Price, 4, 1),
    Trade("minecraft:emerald", 1, "minecraft:bubble_coral_block", 4, Price, 4, 1),
    Trade("minecraft:emerald", 1, "minecraft:calcite", 8, Price, 4, 1),
    Trade("minecraft:emerald", 1, "minecraft:cherry_log", 16, Price, 2, 1),
    Trade("minecraft:emerald", 1, "minecraft:dark_oak_log", 16, Price, 2, 1),
    Trade("minecraft:emerald", 1, "minecraft:dirt", 8, Price, 4, 1),
    Trade("minecraft:emerald", 1, "minecraft:fire_coral_block", 4, Price, 4, 1),
    Trade("minecraft:emerald", 1, "minecraft:glowstone", 4, Price, 4, 1),
    Trade("minecraft:emerald", 1, "minecraft:gunpowder", 8, Price, 4, 1),
    Trade("minecraft:emerald", 1, "minecraft:horn_coral_block", 4, Price, 4, 1),
    Trade("minecraft:emerald", 1, "minecraft:jungle_log", 16, Price, 2, 1),
    Trade("minecraft:emerald", 1, "minecraft:lead", 1, Price, 4, 1),
    Trade("minecraft:emerald", 1, "minecraft:mangrove_log", 16, Price, 2, 1),
    Trade("minecraft:emerald", 1, "minecraft:mycelium", 1, Price, 4, 1),
    Trade("minecraft:emerald", 1, "minecraft:mycelium", 1, Price, 8, 1),
    Trade("minecraft:emerald", 1, "minecraft:nautilus_shell", 2, Price, 4, 1),
    Trade("minecraft:emerald", 1, "minecraft:oak_log", 16, Price, 2, 1),
    Trade("minecraft:emerald", 1, "minecraft:packed_ice", 4, Price, 16, 1),
    Trade("minecraft:emerald", 1, "minecraft:pale_oak_log", 16, Price, 2, 1),
    Trade("minecraft:emerald", 1, "minecraft:podzol", 2, Price, 8, 1),
    Trade("minecraft:emerald", 1, "minecraft:pointed_dripstone", 4, Price, 4, 1),
    Trade("minecraft:emerald", 1, "minecraft:red_sand", 8, Price, 4, 1),
    Trade("minecraft:emerald", 1, "minecraft:sand", 8, Price, 4, 1),
    Trade("minecraft:emerald", 1, "minecraft:slime_ball", 2, Price, 8, 1),
    Trade("minecraft:emerald", 1, "minecraft:spruce_log", 16, Price, 2, 1),
    Trade("minecraft:emerald", 1, "minecraft:tube_coral_block", 4, Price, 4, 1),
    Trade("minecraft:emerald", 4, "minecraft:name_tag", 1, Price, 1, 1),
    Trade("minecraft:emerald", 5, "minecraft:blaze_rod", 1, Price, 2, 1)
  ])

  /** The dict in insertion order. */
  const Sections: Catalogue := [BuysSection, TradesSection, DyesSection, SaplingsSection, PlantsSection, GenericSection]

  /** What every entry of the literal satisfies: at least one and at most
      `maximum_quantity` slots, positive quantities and uses, weight 1. */
  predicate WellFormedTrade(t: Trade) {
    t.buyQuantity > 0 && t.sellQuantity > 0 && t.maxUses > 0 && t.weight == 1
  }

  predicate WellFormedSection(s: Section) {
    && 1 == s.minimumQuantity <= s.maximumQuantity
    && forall j :: 0 <= j < |s.trades| ==> WellFormedTrade(s.trades[j])
  }

  lemma CatalogueShape()
    ensures |Sections| == 6 && DistinctNames(Sections)
    ensures Sections[0].name == "Buys" && |Sections[0].trades| == 9 && Sections[0].maximumQuantity == 1
    ensures Sections[1].name == "Trades" && |Sections[1].trades| == 18 && Sections[1].maximumQuantity == 2
    ensures Sections[2].name == "Dyes" && |Sections[2].trades| == 16 && Sections[2].maximumQuantity == 2
    ensures Sections[3].name == "Saplings" && |Sections[3].trades| == 9 && Sections[3].maximumQuantity == 1
    ensures Sections[4].name == "Plants" && |Sections[4].trades| == 20 && Sections[4].maximumQuantity == 3
    ensures Sections[5].name == "Generic" && |Sections[5].trades| == 31 && Sections[5].maximumQuantity == 2
  {
  }

  lemma BuysWellFormed()
    ensures WellFormedSection(BuysSection)
  {
  }

  lemma TradesWellFormed()
    ensures WellFormedSection(TradesSection)
  {
  }

  lemma DyesWellFormed()
    ensures WellFormedSection(DyesSection)
  {
  }

  lemma SaplingsWellFormed()
    ensures WellFormedSection(SaplingsSection)
  {
  }

  lemma PlantsWellFormed()
    ensures WellFormedSection(PlantsSection)
  {
  }

  lemma GenericWellFormed()
    ensures WellFormedSection(GenericSection)
  {
  }

  lemma CatalogueWellFormed()
    ensures forall i :: 0 <= i < |Sections| ==> WellFormedSection(Sections[i])
  {
    BuysWellFormed();
    TradesWellFormed();
    DyesWellFormed();
    SaplingsWellFormed();
    PlantsWellFormed();
    GenericWellFormed();
  }

  /** The ranges both generators give the six sections. */
  lemma CatalogueRanges()
    ensures SectionRange(Sections, 0) == Range(1, 9)
    ensures SectionRange(Sections, 1) == Range(10, 27)
    ensures SectionRange(Sections, 2) == Range(28, 43)
    ensures SectionRange(Sections, 3) == Range(44, 52)
    ensures SectionRange(Sections, 4) == Range(53, 72)
    ensures SectionRange(Sections, 5) == Range(73, 103)
  {
    TradesBeforeFirst(Sections);
    TradesBeforeStep(Sections, 0);
    TradesBeforeStep(Sections, 1);
    TradesBeforeStep(Sections, 2);
    TradesBeforeStep(Sections, 3);
    TradesBeforeStep(Sections, 4);
  }

  /** Eleven slots: 1 + 2 + 2 + 1 + 3 + 2. */
  lemma CatalogueSlots()
    ensures TotalSlots(Sections) == 11
  {
    TotalSlotsCons(Sections);
    TotalSlotsCons(Sections[1..]);
    TotalSlotsCons(Sections[2..]);
    TotalSlotsCons(Sections[3..]);
    TotalSlotsCons(Sections[4..]);
    TotalSlotsCons(Sections[5..]);
  }

  /** 103 trades: the last range ends there. */
  lemma CatalogueTradeCount()
    ensures TradeCount(Sections) == 103
  {
    CatalogueRanges();
    TradesBeforeStep(Sections, 5);
    assert Sections[..6] == Sections;
  }

  /** Compiling the catalogue gives 22 scoreboard lines and 103 trade lines. */
  lemma CatalogueOutputSizes()
    ensures |GenerateScoreboardCommands(Sections)| == 22
    ensures |GenerateTradeCommands(Sections)| == 103
  {
    CatalogueSlots();
    CatalogueTradeCount();
    ScoreboardLengthFrom(Sections, 1);
    AllTradesLength(Sections);
  }

  /** Generic trades 16 and 17 (emerald for one mycelium, 4 and 8 uses)
      share the guard key but not the offer, so the compiled lines 89 and
      90 check for the same recipe and insert different ones. */
  lemma MyceliumPair()
    ensures UnlessNbt(GenericSection.trades[16]) == UnlessNbt(GenericSection.trades[17])
    ensures AddNbt(GenericSection.trades[16]) != AddNbt(GenericSection.trades[17])
    ensures KeyOf(GenericSection.trades[16]) == KeyOf(GenericSection.trades[17])
    ensures OfferOf(GenericSection.trades[16]) != OfferOf(GenericSection.trades[17])
  {
    var a, b := GenericSection.trades[16], GenericSection.trades[17];
    assert KeyOf(a) == KeyOf(b) && OfferOf(a).maxUses != OfferOf(b).maxUses;
    UnlessNbtDeterminesKey(a, b);
    AddNbtDeterminesOffer(a, b);
  }

  /** In the compiled trade output the two mycelium offers are lines 89 and
      90: both are guarded by the same key, and they insert different offers. */
  lemma MyceliumLines()
    ensures 89 < |GenerateTradeCommands(Sections)|
    ensures DecodeTradeLine(GenerateTradeCommands(Sections)[88])
            == Some((89, KeyOf(GenericSection.trades[16]), OfferOf(GenericSection.trades[16])))
    ensures DecodeTradeLine(GenerateTradeCommands(Sections)[89])
            == Some((90, KeyOf(GenericSection.trades[17]), OfferOf(GenericSection.trades[17])))
    ensures KeyOf(GenericSection.trades[16]) == KeyOf(GenericSection.trades[17])
    ensures OfferOf(GenericSection.trades[16]) != OfferOf(GenericSection.trades[17])
  {
    MyceliumPair();
    CatalogueRanges();
    DrawSelectsSectionTrade(Sections, 5, 89);
    DrawSelectsSectionTrade(Sections, 5, 90);
  }
}
