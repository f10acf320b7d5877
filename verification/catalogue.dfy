/** Sections of the trade catalogue: the values of the `trades` dict in
    trades.py, kept as a sequence so that the dict's insertion order, which
    both command generators iterate in, is explicit. */
module Catalogue {
  import opened Trades

  datatype Section = Section(name: string, minimumQuantity: int, maximumQuantity: int, trades: seq<Trade>)

  /** The dict's values in insertion order. */
  type Catalogue = seq<Section>

  /** Dict keys are unique. */
  predicate DistinctNames(cat: Catalogue) {
    forall i, j :: 0 <= i < j < |cat| ==> cat[i].name != cat[j].name
  }

  /** Number of trades in all sections together. */
  function TradeCount(cat: Catalogue): nat
    decreases |cat|
  {
    if |cat| == 0 then 0 else TradeCount(cat[..|cat| - 1]) + |cat[|cat| - 1].trades|
  }

  /** Number of trades in the sections before section `i`. */
  function TradesBefore(cat: Catalogue, i: nat): nat
    requires i <= |cat|
  {
    TradeCount(cat[..i])
  }

  /** Iterations of `for _ in range(maximum_quantity)`: none when it is not positive. */
  function SlotCount(s: Section): nat {
    if s.maximumQuantity > 0 then s.maximumQuantity else 0
  }

  /** Number of slots in all sections together. */
  function TotalSlots(cat: Catalogue): nat
    decreases |cat|
  {
    if |cat| == 0 then 0 else TotalSlots(cat[..|cat| - 1]) + SlotCount(cat[|cat| - 1])
  }

  function SlotsBefore(cat: Catalogue, i: nat): nat
    requires i <= |cat|
  {
    TotalSlots(cat[..i])
  }

  /** Every trade of the catalogue, section by section, each section's trades in order. */
  function AllTrades(cat: Catalogue): seq<Trade>
    decreases |cat|
  {
    if |cat| == 0 then [] else AllTrades(cat[..|cat| - 1]) + cat[|cat| - 1].trades
  }

  lemma {:induction false} TradeCountAppend(a: Catalogue, b: Catalogue)
    ensures TradeCount(a + b) == TradeCount(a) + TradeCount(b)
    decreases |b|
  {
    if |b| > 0 {
      assert (a + b)[..|a + b| - 1] == a + b[..|b| - 1];
      TradeCountAppend(a, b[..|b| - 1]);
    } else {
      assert a + b == a;
    }
  }

  lemma {:induction false} TotalSlotsAppend(a: Catalogue, b: Catalogue)
    ensures TotalSlots(a + b) == TotalSlots(a) + TotalSlots(b)
    decreases |b|
  {
    if |b| > 0 {
      assert (a + b)[..|a + b| - 1] == a + b[..|b| - 1];
      TotalSlotsAppend(a, b[..|b| - 1]);
    } else {
      assert a + b == a;
    }
  }

  /** The trade count splits as the first section's trades plus the rest. */
  lemma TradeCountCons(cat: Catalogue)
    requires |cat| > 0
    ensures TradeCount(cat) == |cat[0].trades| + TradeCount(cat[1..])
  {
    assert cat == [cat[0]] + cat[1..];
    TradeCountAppend([cat[0]], cat[1..]);
    assert [cat[0]][..0] == [];
  }

  lemma TotalSlotsCons(cat: Catalogue)
    requires |cat| > 0
    ensures TotalSlots(cat) == SlotCount(cat[0]) + TotalSlots(cat[1..])
  {
    assert cat == [cat[0]] + cat[1..];
    TotalSlotsAppend([cat[0]], cat[1..]);
    assert [cat[0]][..0] == [];
  }

  /** The flattened trades number `TradeCount`, and trade `j` of section `i`
      sits right after the trades of the earlier sections. */
  lemma {:induction false} AllTradesAt(cat: Catalogue, i: nat, j: nat)
    requires i < |cat| && j < |cat[i].trades|
    ensures |AllTrades(cat)| == TradeCount(cat)
    ensures TradesBefore(cat, i) + j < |AllTrades(cat)|
    ensures AllTrades(cat)[TradesBefore(cat, i) + j] == cat[i].trades[j]
    decreases |cat|
  {
    var init := cat[..|cat| - 1];
    assert AllTrades(cat) == AllTrades(init) + cat[|cat| - 1].trades;
    AllTradesLength(init);
    if i < |cat| - 1 {
      AllTradesAt(init, i, j);
      assert init[..i] == cat[..i];
    } else {
      assert cat[..i] == init;
    }
  }

  lemma {:induction false} AllTradesLength(cat: Catalogue)
    ensures |AllTrades(cat)| == TradeCount(cat)
    decreases |cat|
  {
    if |cat| > 0 {
      AllTradesLength(cat[..|cat| - 1]);
    }
  }

  lemma {:induction false} TradesBeforeMonotone(cat: Catalogue, i: nat, j: nat)
    requires i <= j <= |cat|
    ensures TradesBefore(cat, i) <= TradesBefore(cat, j)
    ensures j < |cat| ==> TradesBefore(cat, i) + |cat[j].trades| <= TradesBefore(cat, j + 1)
    decreases j - i
  {
    if j < |cat| {
      assert cat[..j + 1][..j] == cat[..j];
    }
    if i < j {
      TradesBeforeMonotone(cat, i, j - 1);
      assert cat[..j][..j - 1] == cat[..j - 1];
    }
  }
}
