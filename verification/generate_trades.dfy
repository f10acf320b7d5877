/** The two command generators of generate_trades.py. Each walks the
    catalogue in order with its own running index starting at 1:
    `generate_scoreboard_commands` gives every section the index range
    `start..end` sized by its trade count and emits `maximum_quantity`
    draw/dispatch line pairs for it; `generate_trade_commands` emits one
    guarded insertion line per trade. The lemmas show that the two counters
    agree: a value drawn from section i's range selects a trade of section i. */
module GenerateTrades {
  import opened Wrappers
  import opened Text
  import opened Trades
  import opened Catalogue

  /** An inclusive index range `start..end`; empty when `end < start`. */
  datatype Range = Range(start: int, end: int)

  const Execute := "execute "
  /** The scoreboard objective holding the drawn index. */
  const Objective := "RandomsWanderingTraders"
  const RandomPrefix := Execute + "store result score @s " + Objective + " run random value "
  const DispatchLine := Execute + "as @s run function " + "randoms_wandering_traders:" + "add_scoreboard_based_trade"
  const GuardPrefix := Execute + "if score @s " + Objective + " matches "
  const UnlessInfix := " " + "unless data entity @s " + "Offers.Recipes.["
  const InsertInfix := "] run data modify entity @s " + "Offers.Recipes insert -1 value "

  /** The line that draws a random value in `r` into the trader's score. */
  function RandomLine(r: Range): string {
    RandomPrefix + IntToString(r.start) + ".." + IntToString(r.end)
  }

  /** The guarded insertion line for `t` under index `index`. */
  function TradeLine(index: int, t: Trade): string {
    GuardPrefix + IntToString(index) + UnlessInfix + UnlessNbt(t) + InsertInfix + AddNbt(t)
  }

  /** The three kinds of line the generators emit, before they are rendered
      as text: a draw over a range, the dispatch, a guarded insertion. */
  datatype Command = Draw(range: Range) | Dispatch | Insert(index: int, trade: Trade)

  function Render(c: Command): string {
    match c
    case Draw(r) => RandomLine(r)
    case Dispatch => DispatchLine
    case Insert(index, t) => TradeLine(index, t)
  }

  /** Renders every command, one line each, in order. */
  function RenderAll(cs: seq<Command>): (lines: seq<string>)
    ensures |lines| == |cs|
    decreases |cs|
  {
    if |cs| == 0 then [] else RenderAll(cs[..|cs| - 1]) + [Render(cs[|cs| - 1])]
  }

  /** Line `k` is the rendering of command `k`. */
  lemma {:induction false} RenderAllAt(cs: seq<Command>, k: nat)
    requires k < |cs|
    ensures RenderAll(cs)[k] == Render(cs[k])
    decreases |cs|
  {
    if k < |cs| - 1 {
      RenderAllAt(cs[..|cs| - 1], k);
    }
  }

  /* ---------------------------------------------------------------------- */
  /* generate_scoreboard_commands                                            */

  /** The `for _ in range(max_qty)` loop: `max_qty` pairs, none when it is not positive. */
  function SlotPairs(r: Range, maxQty: int): (cs: seq<Command>)
    ensures |cs| == 2 * (if maxQty > 0 then maxQty else 0)
    decreases maxQty
  {
    if maxQty <= 0 then [] else [Draw(r), Dispatch] + SlotPairs(r, maxQty - 1)
  }

  /** Each pair is the draw followed by the dispatch. */
  lemma {:induction false} SlotPairsAt(r: Range, maxQty: int, p: nat)
    requires p < |SlotPairs(r, maxQty)|
    ensures SlotPairs(r, maxQty)[p] == if p % 2 == 0 then Draw(r) else Dispatch
    decreases maxQty
  {
    if p >= 2 {
      SlotPairsAt(r, maxQty - 1, p - 2);
      assert (p - 2) % 2 == p % 2;
    }
  }

  /** The outer loop from the section list `sections` on, with the running index at `index`. */
  function ScoreboardFrom(sections: seq<Section>, index: int): seq<Command>
    decreases |sections|
  {
    if |sections| == 0 then []
    else
      var count := |sections[0].trades|;
      var start := index;
      var end := index + count - 1;
      SlotPairs(Range(start, end), sections[0].maximumQuantity) + ScoreboardFrom(sections[1..], end + 1)
  }

  function ScoreboardCommands(cat: Catalogue): seq<Command> {
    ScoreboardFrom(cat, 1)
  }

  /** `generate_scoreboard_commands`: two lines for every slot, so nothing
      for a section whose `maximum_quantity` is not positive. */
  function GenerateScoreboardCommands(cat: Catalogue): (r: seq<string>)
    ensures |r| == 2 * TotalSlots(cat)
  {
    ScoreboardLengthFrom(cat, 1);
    RenderAll(ScoreboardCommands(cat))
  }

  /* ---------------------------------------------------------------------- */
  /* generate_trade_commands                                                 */

  /** The loop body run over the trade list `ts` with the running index at
      `index`: one insertion under the current index, then `index += 1`. */
  function TradeCommandsFrom(ts: seq<Trade>, index: int): (cs: seq<Command>)
    ensures |cs| == |ts|
    decreases |ts|
  {
    if |ts| == 0 then [] else [Insert(index, ts[0])] + TradeCommandsFrom(ts[1..], index + 1)
  }

  /** The k-th command carries index `index + k` and the k-th trade. */
  lemma {:induction false} TradeCommandsFromAt(ts: seq<Trade>, index: int, k: nat)
    requires k < |ts|
    ensures TradeCommandsFrom(ts, index)[k] == Insert(index + k, ts[k])
    decreases |ts|
  {
    if k > 0 {
      TradeCommandsFromAt(ts[1..], index + 1, k - 1);
    }
  }

  /** Nested loops over sections and their trades with one counter, i.e. a
      single loop over the trades in section-then-trade order. */
  function TradeCommands(cat: Catalogue): seq<Command> {
    TradeCommandsFrom(AllTrades(cat), 1)
  }

  /** `generate_trade_commands`: the k-th line inserts the k-th trade of the
      flattened catalogue under index `k + 1`. */
  function GenerateTradeCommands(cat: Catalogue): (r: seq<string>)
    ensures |r| == |AllTrades(cat)|
    ensures forall k :: 0 <= k < |r| ==> r[k] == TradeLine(k + 1, AllTrades(cat)[k])
  {
    TradeLinesAt(cat);
    RenderAll(TradeCommands(cat))
  }

  /** The rendered trade commands, line by line. */
  lemma TradeLinesAt(cat: Catalogue)
    ensures |RenderAll(TradeCommands(cat))| == |AllTrades(cat)|
    ensures forall k :: 0 <= k < |AllTrades(cat)| ==>
              RenderAll(TradeCommands(cat))[k] == TradeLine(k + 1, AllTrades(cat)[k])
  {
    forall k | 0 <= k < |AllTrades(cat)|
      ensures RenderAll(TradeCommands(cat))[k] == TradeLine(k + 1, AllTrades(cat)[k])
    {
      TradeLineAt(cat, k);
    }
  }

  lemma TradeLineAt(cat: Catalogue, k: nat)
    requires k < |AllTrades(cat)|
    ensures RenderAll(TradeCommands(cat))[k] == TradeLine(k + 1, AllTrades(cat)[k])
  {
    var cs := TradeCommands(cat);
    TradeCommandsFromAt(AllTrades(cat), 1, k);
    RenderAllAt(cs, k);
    assert cs[k] == Insert(k + 1, AllTrades(cat)[k]);
  }

  /* ---------------------------------------------------------------------- */
  /* Reference allocation and decoders                                       */

  /** The range section `i` is given: it starts right after the trades of the
      earlier sections and is as long as the section has trades. */
  function SectionRange(cat: Catalogue, i: nat): Range
    requires i < |cat|
  {
    Range(1 + TradesBefore(cat, i), TradesBefore(cat, i) + |cat[i].trades|)
  }

  /** Reads back the bounds of a draw line. */
  function DecodeRandomLine(line: string): Option<Range> {
    var a :- Expect(line, RandomPrefix);
    var (start, b) :- DecodeInt(a);
    var c :- Expect(b, "..");
    var (end, d) :- DecodeInt(c);
    if |d| == 0 then Some(Range(start, end)) else None
  }

  /** Reads back the index, absence key and offer of a trade line. */
  function DecodeTradeLine(line: string): Option<(int, OfferKey, Offer)> {
    var a :- Expect(line, GuardPrefix);
    var (index, b) :- DecodeInt(a);
    var c :- Expect(b, UnlessInfix);
    var (key, d) :- DecodeKey(c);
    var e :- Expect(d, InsertInfix);
    var (offer, f) :- DecodeOffer(e);
    if |f| == 0 then Some((index, key, offer)) else None
  }

  lemma DecodeRandomLineStep(line: string, r: Range, a: string, b: string, c: string)
    requires Expect(line, RandomPrefix) == Some(a)
    requires DecodeInt(a) == Some((r.start, b))
    requires Expect(b, "..") == Some(c)
    requires DecodeInt(c) == Some((r.end, ""))
    ensures DecodeRandomLine(line) == Some(r)
  {
  }

  /** A draw line reads back as exactly the range it was built from. */
  lemma DecodeRandomLineOf(r: Range)
    ensures DecodeRandomLine(RandomLine(r)) == Some(r)
  {
    var s2 := IntToString(r.end);
    var c := s2 + "";
    var b := ".." + c;
    var a := IntToString(r.start) + b;
    Regroup3(RandomPrefix, IntToString(r.start), "..", s2);
    assert s2 + "" == s2;
    ExpectLiteral(RandomPrefix, a);
    DecodeIntToString(r.start, b);
    ExpectLiteral("..", c);
    DecodeIntToString(r.end, "");
    DecodeRandomLineStep(RandomPrefix + a, r, a, b, c);
  }

  /** A draw line is never the dispatch line. */
  lemma RandomLineNotDispatch(r: Range)
    ensures RandomLine(r) != DispatchLine
  {
    assert RandomLine(r)[8] == RandomPrefix[8] == 's';
    assert DispatchLine[8] == 'a';
  }

  lemma DecodeTradeLineStep(line: string, index: int, key: OfferKey, offer: Offer, a: string, b: string, c: string, d: string, e: string)
    requires Expect(line, GuardPrefix) == Some(a)
    requires DecodeInt(a) == Some((index, b))
    requires Expect(b, UnlessInfix) == Some(c)
    requires DecodeKey(c) == Some((key, d))
    requires Expect(d, InsertInfix) == Some(e)
    requires DecodeOffer(e) == Some((offer, ""))
    ensures DecodeTradeLine(line) == Some((index, key, offer))
  {
  }

  /** A trade line reads back as its index, the trade's key and its offer:
      the line determines all three. */
  lemma DecodeTradeLineOf(index: int, t: Trade)
    ensures DecodeTradeLine(TradeLine(index, t)) == Some((index, KeyOf(t), OfferOf(t)))
  {
    var e := AddNbt(t);
    var d := InsertInfix + e;
    var c := UnlessNbt(t) + d;
    var b := UnlessInfix + c;
    var a := IntToString(index) + b;
    Regroup5(GuardPrefix, IntToString(index), UnlessInfix, UnlessNbt(t), InsertInfix, e);
    ExpectLiteral(GuardPrefix, a);
    assert b[0] == UnlessInfix[0] == ' ';
    DecodeIntToString(index, b);
    ExpectLiteral(UnlessInfix, c);
    DecodeUnlessNbt(t, d);
    ExpectLiteral(InsertInfix, e);
    DecodeAddNbt(t, "");
    assert e + "" == e;
    DecodeTradeLineStep(GuardPrefix + a, index, KeyOf(t), OfferOf(t), a, b, c, d, e);
  }

  /* ---------------------------------------------------------------------- */
  /* The allocation partitions 1..TradeCount                                 */

  lemma TradesBeforeFirst(cat: Catalogue)
    ensures TradesBefore(cat, 0) == 0
  {
    assert cat[..0] == [];
  }

  lemma TradesBeforeStep(cat: Catalogue, i: nat)
    requires i < |cat|
    ensures TradesBefore(cat, i + 1) == TradesBefore(cat, i) + |cat[i].trades|
  {
    assert cat[..i + 1][..i] == cat[..i];
  }

  /** Ranges in catalogue order: the first starts at 1, each is as long as its
      section, the next starts right after it, and the last ends at the total
      trade count. An empty section gets `start..start-1` and leaves the next
      start where it was. */
  lemma RangesContiguous(cat: Catalogue)
    ensures |cat| > 0 ==> SectionRange(cat, 0).start == 1
    ensures forall i :: 0 <= i < |cat| ==> SectionRange(cat, i).end == SectionRange(cat, i).start + |cat[i].trades| - 1
    ensures forall i :: 0 <= i < |cat| - 1 ==> SectionRange(cat, i + 1).start == SectionRange(cat, i).end + 1
    ensures |cat| > 0 ==> SectionRange(cat, |cat| - 1).end == TradeCount(cat)
  {
    TradesBeforeFirst(cat);
    forall i | 0 <= i < |cat| - 1
      ensures SectionRange(cat, i + 1).start == SectionRange(cat, i).end + 1
    {
      TradesBeforeStep(cat, i);
    }
    if |cat| > 0 {
      TradesBeforeStep(cat, |cat| - 1);
      assert cat[..|cat|] == cat;
    }
  }

  /** Ranges of different sections never overlap; earlier sections get lower indices. */
  lemma RangesDisjoint(cat: Catalogue, i: nat, j: nat)
    requires i < j < |cat|
    ensures SectionRange(cat, i).end < SectionRange(cat, j).start
  {
    TradesBeforeMonotone(cat, i, i);
    TradesBeforeMonotone(cat, i + 1, j);
  }

  predicate InRange(r: Range, v: int) {
    r.start <= v <= r.end
  }

  /** Some section's range holds `v`. */
  predicate Allocated(cat: Catalogue, v: int) {
    exists i :: 0 <= i < |cat| && InRange(SectionRange(cat, i), v)
  }

  /** Every index from 1 to the total trade count lies in some section's range. */
  lemma {:induction false} RangesCover(cat: Catalogue, v: int)
    requires 1 <= v <= TradeCount(cat)
    ensures Allocated(cat, v)
    decreases |cat|
  {
    var last := |cat| - 1;
    var init := cat[..last];
    if v <= TradeCount(init) {
      RangesCover(init, v);
      var i :| 0 <= i < |init| && InRange(SectionRange(init, i), v);
      assert init[..i] == cat[..i];
      assert SectionRange(init, i) == SectionRange(cat, i);
    } else {
      assert InRange(SectionRange(cat, last), v);
    }
  }

  /** The ranges partition 1..TradeCount: each index in it is allocated, ranges of
      different sections are disjoint, and no range reaches outside it. */
  lemma RangesPartition(cat: Catalogue)
    ensures forall v :: 1 <= v <= TradeCount(cat) <==> Allocated(cat, v)
    ensures forall i, j :: 0 <= i < j < |cat| ==> SectionRange(cat, i).end < SectionRange(cat, j).start
  {
    forall v
      ensures 1 <= v <= TradeCount(cat) <==> Allocated(cat, v)
    {
      if 1 <= v <= TradeCount(cat) {
        RangesCover(cat, v);
      }
      if Allocated(cat, v) {
        var i :| 0 <= i < |cat| && InRange(SectionRange(cat, i), v);
        TradesBeforeMonotone(cat, i, i);
        TradesBeforeMonotone(cat, i + 1, |cat|);
        assert cat[..|cat|] == cat;
      }
    }
    forall i, j | 0 <= i < j < |cat|
      ensures SectionRange(cat, i).end < SectionRange(cat, j).start
    {
      RangesDisjoint(cat, i, j);
    }
  }

  /* ---------------------------------------------------------------------- */
  /* The scoreboard output                                                   */

  lemma PrefixCountsCons(secs: seq<Section>, i: nat)
    requires 0 < i <= |secs|
    ensures TradesBefore(secs, i) == |secs[0].trades| + TradesBefore(secs[1..], i - 1)
    ensures SlotsBefore(secs, i) == SlotCount(secs[0]) + SlotsBefore(secs[1..], i - 1)
  {
    TradeCountCons(secs[..i]);
    TotalSlotsCons(secs[..i]);
    assert secs[..i][1..] == secs[1..][..i - 1];
  }

  lemma {:induction false} ScoreboardLengthFrom(secs: seq<Section>, index: int)
    ensures |ScoreboardFrom(secs, index)| == 2 * TotalSlots(secs)
    decreases |secs|
  {
    if |secs| > 0 {
      ScoreboardFromCons(secs, index);
      TotalSlotsCons(secs);
      ScoreboardLengthFrom(secs[1..], index + |secs[0].trades|);
    }
  }

  /** Position of the draw of slot `s` of section `i`: two lines for each
      slot of the earlier sections and for each earlier slot of this one. */
  function SlotPosition(secs: seq<Section>, i: nat, s: nat): nat
    requires i <= |secs|
  {
    2 * (SlotsBefore(secs, i) + s)
  }

  /** The range the running index gives section `i` when the walk starts at `index`. */
  function CursorRange(secs: seq<Section>, index: int, i: nat): Range
    requires i < |secs|
  {
    Range(index + TradesBefore(secs, i), index + TradesBefore(secs, i) + |secs[i].trades| - 1)
  }

  /** Slot positions and cursor ranges of section `i` are those of section
      `i - 1` of the rest, shifted past the first section. */
  lemma SlotPositionCons(secs: seq<Section>, index: int, i: nat, s: nat)
    requires 0 < i < |secs|
    ensures SlotPosition(secs, i, s) == 2 * SlotCount(secs[0]) + SlotPosition(secs[1..], i - 1, s)
    ensures CursorRange(secs, index, i) == CursorRange(secs[1..], index + |secs[0].trades|, i - 1)
  {
    PrefixCountsCons(secs, i);
  }

  /** The walk over `secs` from `index` is the first section's pairs followed
      by the walk over the rest from the next index. */
  lemma ScoreboardFromCons(secs: seq<Section>, index: int)
    requires |secs| > 0
    ensures ScoreboardFrom(secs, index)
            == SlotPairs(Range(index, index + |secs[0].trades| - 1), secs[0].maximumQuantity)
               + ScoreboardFrom(secs[1..], index + |secs[0].trades|)
  {
  }

  /** Position `p` of `cs` is a draw over `r` and the next one the dispatch. */
  predicate SlotPairAt(cs: seq<Command>, p: int, r: Range) {
    0 <= p && p + 1 < |cs| && cs[p] == Draw(r) && cs[p + 1] == Dispatch
  }

  /** A position inside the first section's pairs reads from those pairs. */
  lemma ScoreboardHeadAt(secs: seq<Section>, index: int, q: nat)
    requires |secs| > 0
    requires q < |SlotPairs(Range(index, index + |secs[0].trades| - 1), secs[0].maximumQuantity)|
    ensures q < |ScoreboardFrom(secs, index)|
    ensures ScoreboardFrom(secs, index)[q]
            == SlotPairs(Range(index, index + |secs[0].trades| - 1), secs[0].maximumQuantity)[q]
  {
    ScoreboardFromCons(secs, index);
  }

  /** Position `p`, after the first section's pairs, holds what position
      `q` of the walk over the rest holds. */
  lemma ScoreboardTailAt(secs: seq<Section>, index: int, p: nat, q: nat)
    requires |secs| > 0
    requires q < |ScoreboardFrom(secs[1..], index + |secs[0].trades|)|
    requires p == 2 * SlotCount(secs[0]) + q
    ensures p < |ScoreboardFrom(secs, index)|
    ensures ScoreboardFrom(secs, index)[p] == ScoreboardFrom(secs[1..], index + |secs[0].trades|)[q]
  {
    ScoreboardFromCons(secs, index);
  }

  /** The walk is as long as the first section's pairs and the rest's walk together. */
  lemma ScoreboardLengthCons(secs: seq<Section>, index: int)
    requires |secs| > 0
    ensures |ScoreboardFrom(secs, index)|
            == 2 * SlotCount(secs[0]) + |ScoreboardFrom(secs[1..], index + |secs[0].trades|)|
  {
    ScoreboardFromCons(secs, index);
  }

  /** Slot `s` of the first section is the pair at `2 * s`, drawing over
      the first section's range. */
  lemma ScoreboardSlotHead(secs: seq<Section>, index: int, s: nat)
    requires |secs| > 0 && s < SlotCount(secs[0])
    ensures SlotPairAt(ScoreboardFrom(secs, index), SlotPosition(secs, 0, s), CursorRange(secs, index, 0))
  {
    var r := Range(index, index + |secs[0].trades| - 1);
    assert secs[..0] == [];
    assert CursorRange(secs, index, 0) == r;
    var p := 2 * s;
    var p1 := p + 1;
    ScoreboardHeadAt(secs, index, p);
    ScoreboardHeadAt(secs, index, p1);
    SlotPairsAt(r, secs[0].maximumQuantity, p);
    SlotPairsAt(r, secs[0].maximumQuantity, p1);
  }

  /** A slot of a later section is the corresponding slot of the walk over
      the rest, shifted past the first section's pairs. */
  lemma ScoreboardSlotStep(secs: seq<Section>, index: int, i: nat, s: nat)
    requires 0 < i < |secs| && s < SlotCount(secs[i])
    requires SlotPairAt(ScoreboardFrom(secs[1..], index + |secs[0].trades|),
                        SlotPosition(secs[1..], i - 1, s), CursorRange(secs[1..], index + |secs[0].trades|, i - 1))
    ensures SlotPairAt(ScoreboardFrom(secs, index), SlotPosition(secs, i, s), CursorRange(secs, index, i))
  {
    SlotPositionCons(secs, index, i, s);
    ScoreboardTailAt(secs, index, SlotPosition(secs, i, s), SlotPosition(secs[1..], i - 1, s));
    ScoreboardTailAt(secs, index, SlotPosition(secs, i, s) + 1, SlotPosition(secs[1..], i - 1, s) + 1);
  }

  lemma {:induction false} ScoreboardSlotFrom(secs: seq<Section>, index: int, i: nat, s: nat)
    requires i < |secs| && s < SlotCount(secs[i])
    ensures SlotPairAt(ScoreboardFrom(secs, index), SlotPosition(secs, i, s), CursorRange(secs, index, i))
    decreases |secs|
  {
    if i == 0 {
      ScoreboardSlotHead(secs, index, s);
    } else {
      ScoreboardSlotFrom(secs[1..], index + |secs[0].trades|, i - 1, s);
      ScoreboardSlotStep(secs, index, i, s);
    }
  }

  /** Slot `s` of section `i` is a draw over exactly `SectionRange(cat, i)`
      followed by the dispatch, at the position after all earlier slots. */
  lemma ScoreboardSlot(cat: Catalogue, i: nat, s: nat)
    requires i < |cat| && s < SlotCount(cat[i])
    ensures SlotPairAt(ScoreboardCommands(cat), SlotPosition(cat, i, s), SectionRange(cat, i))
  {
    ScoreboardSlotFrom(cat, 1, i, s);
    assert CursorRange(cat, 1, i) == SectionRange(cat, i);
  }

  /** The rendered lines of slot `s` of section `i`. */
  lemma ScoreboardLinesAt(cat: Catalogue, i: nat, s: nat)
    requires i < |cat| && s < SlotCount(cat[i])
    ensures SlotPosition(cat, i, s) + 1 < |GenerateScoreboardCommands(cat)|
    ensures GenerateScoreboardCommands(cat)[SlotPosition(cat, i, s)] == RandomLine(SectionRange(cat, i))
    ensures GenerateScoreboardCommands(cat)[SlotPosition(cat, i, s) + 1] == DispatchLine
  {
    var cs := ScoreboardCommands(cat);
    var p := SlotPosition(cat, i, s);
    var p1 := p + 1;
    ScoreboardSlot(cat, i, s);
    assert cs[p] == Draw(SectionRange(cat, i)) && cs[p1] == Dispatch;
    RenderAllAt(cs, p);
    RenderAllAt(cs, p1);
  }

  /** The scoreboard output has two lines per slot, so a section whose
      `maximum_quantity` is not positive contributes nothing; slot `s` of
      section `i` is the draw line over exactly `SectionRange(cat, i)`
      followed by the dispatch line, so slots come in catalogue order. */
  lemma ScoreboardLayout(cat: Catalogue)
    ensures |GenerateScoreboardCommands(cat)| == 2 * TotalSlots(cat)
    ensures forall i, s :: 0 <= i < |cat| && 0 <= s < SlotCount(cat[i]) ==>
              && SlotPosition(cat, i, s) + 1 < |GenerateScoreboardCommands(cat)|
              && GenerateScoreboardCommands(cat)[SlotPosition(cat, i, s)] == RandomLine(SectionRange(cat, i))
              && GenerateScoreboardCommands(cat)[SlotPosition(cat, i, s) + 1] == DispatchLine
  {
    ScoreboardLengthFrom(cat, 1);
    forall i, s | 0 <= i < |cat| && 0 <= s < SlotCount(cat[i])
      ensures && SlotPosition(cat, i, s) + 1 < |GenerateScoreboardCommands(cat)|
              && GenerateScoreboardCommands(cat)[SlotPosition(cat, i, s)] == RandomLine(SectionRange(cat, i))
              && GenerateScoreboardCommands(cat)[SlotPosition(cat, i, s) + 1] == DispatchLine
    {
      ScoreboardLinesAt(cat, i, s);
    }
  }

  /** Removing an even amount keeps the parity. */
  lemma ShiftParity(p: int, k: int)
    ensures (p - 2 * k) % 2 == p % 2
  {
  }

  lemma {:induction false} ScoreboardParityFrom(secs: seq<Section>, index: int, p: nat)
    requires p < |ScoreboardFrom(secs, index)|
    ensures if p % 2 == 0 then ScoreboardFrom(secs, index)[p].Draw? else ScoreboardFrom(secs, index)[p] == Dispatch
    decreases |secs|
  {
    var n := SlotCount(secs[0]);
    ScoreboardLengthCons(secs, index);
    if p < 2 * n {
      ScoreboardHeadAt(secs, index, p);
      SlotPairsAt(Range(index, index + |secs[0].trades| - 1), secs[0].maximumQuantity, p);
    } else {
      var next := index + |secs[0].trades|;
      var q := p - 2 * n;
      ScoreboardParityFrom(secs[1..], next, q);
      ScoreboardTailAt(secs, index, p, q);
      ShiftParity(p, n);
    }
  }

  /** Even positions hold draw lines and odd positions the dispatch line. */
  lemma ScoreboardParity(cat: Catalogue)
    ensures forall p :: 0 <= p < |GenerateScoreboardCommands(cat)| ==>
              (GenerateScoreboardCommands(cat)[p] == DispatchLine <==> p % 2 == 1)
    ensures forall p :: 0 <= p < |GenerateScoreboardCommands(cat)| && p % 2 == 0 ==>
              DecodeRandomLine(GenerateScoreboardCommands(cat)[p]).Some?
  {
    var cs := ScoreboardCommands(cat);
    forall p | 0 <= p < |cs|
      ensures (GenerateScoreboardCommands(cat)[p] == DispatchLine <==> p % 2 == 1)
      ensures p % 2 == 0 ==> DecodeRandomLine(GenerateScoreboardCommands(cat)[p]).Some?
    {
      ScoreboardParityFrom(cat, 1, p);
      RenderAllAt(cs, p);
      if p % 2 == 0 {
        RandomLineNotDispatch(cs[p].range);
        DecodeRandomLineOf(cs[p].range);
      }
    }
  }

  /* ---------------------------------------------------------------------- */
  /* The trade output and the agreement of the two counters                  */

  /** Position of trade `j` of section `i` in the trade output: after the
      trades of the earlier sections. */
  function TradePosition(cat: Catalogue, i: nat, j: nat): nat
    requires i < |cat|
  {
    TradesBefore(cat, i) + j
  }

  /** Trade `j` of section `i` is inserted under index `SectionRange(cat, i).start + j`,
      at the position after the trades of the earlier sections. */
  lemma TradeCommandAt(cat: Catalogue, i: nat, j: nat)
    requires i < |cat| && j < |cat[i].trades|
    ensures |TradeCommands(cat)| == TradeCount(cat)
    ensures TradePosition(cat, i, j) < |TradeCommands(cat)|
    ensures TradeCommands(cat)[TradePosition(cat, i, j)] == Insert(SectionRange(cat, i).start + j, cat[i].trades[j])
  {
    AllTradesAt(cat, i, j);
    TradeCommandsFromAt(AllTrades(cat), 1, TradePosition(cat, i, j));
  }

  /** One command per trade, in section-then-trade order; the command for
      trade `j` of section `i` carries index `SectionRange(cat, i).start + j`,
      which lies inside that section's range. */
  lemma TradeCommandsLayout(cat: Catalogue)
    ensures |GenerateTradeCommands(cat)| == |TradeCommands(cat)| == TradeCount(cat)
    ensures forall i, j :: 0 <= i < |cat| && 0 <= j < |cat[i].trades| ==>
              && TradePosition(cat, i, j) < |TradeCommands(cat)|
              && TradeCommands(cat)[TradePosition(cat, i, j)] == Insert(SectionRange(cat, i).start + j, cat[i].trades[j])
              && InRange(SectionRange(cat, i), SectionRange(cat, i).start + j)
  {
    AllTradesLength(cat);
    forall i, j | 0 <= i < |cat| && 0 <= j < |cat[i].trades|
      ensures && TradePosition(cat, i, j) < |TradeCommands(cat)|
              && TradeCommands(cat)[TradePosition(cat, i, j)] == Insert(SectionRange(cat, i).start + j, cat[i].trades[j])
    {
      TradeCommandAt(cat, i, j);
    }
  }

  /** `line` reads back as guarded by index `v`, checking for the key of
      `t` and inserting the offer of `t`. */
  predicate Installs(line: string, v: int, t: Trade) {
    DecodeTradeLine(line) == Some((v, KeyOf(t), OfferOf(t)))
  }

  /** A rendered insertion reads back as its index, key and offer. */
  lemma RenderedInsertDecodes(cat: Catalogue, k: nat, index: int, t: Trade)
    requires k < |TradeCommands(cat)| && TradeCommands(cat)[k] == Insert(index, t)
    ensures k < |GenerateTradeCommands(cat)|
    ensures Installs(GenerateTradeCommands(cat)[k], index, t)
  {
    RenderAllAt(TradeCommands(cat), k);
    DecodeTradeLineOf(index, t);
  }

  /** The k-th trade line is guarded by `k + 1` and installs the k-th trade. */
  lemma TradeLineGuardAt(cat: Catalogue, k: nat)
    requires k < |GenerateTradeCommands(cat)|
    ensures k < |AllTrades(cat)|
    ensures DecodeTradeLine(GenerateTradeCommands(cat)[k]) == Some((k + 1, KeyOf(AllTrades(cat)[k]), OfferOf(AllTrades(cat)[k])))
  {
    var x := k + 1;
    TradeCommandsFromAt(AllTrades(cat), 1, k);
    RenderedInsertDecodes(cat, k, x, AllTrades(cat)[k]);
  }

  /** The guard of the k-th trade line matches exactly the value k + 1, so each
      drawn value selects at most one line, and the line installs the k-th
      trade of the catalogue. */
  lemma TradeLineGuards(cat: Catalogue)
    ensures |GenerateTradeCommands(cat)| == |AllTrades(cat)|
    ensures forall k :: 0 <= k < |GenerateTradeCommands(cat)| ==>
              DecodeTradeLine(GenerateTradeCommands(cat)[k]) == Some((k + 1, KeyOf(AllTrades(cat)[k]), OfferOf(AllTrades(cat)[k])))
  {
    forall k | 0 <= k < |GenerateTradeCommands(cat)|
      ensures DecodeTradeLine(GenerateTradeCommands(cat)[k]) == Some((k + 1, KeyOf(AllTrades(cat)[k]), OfferOf(AllTrades(cat)[k])))
    {
      TradeLineGuardAt(cat, k);
    }
  }

  /** The command half of `DrawSelectsSectionTrade`: the value `v` drawn
      for section `i` is the index of the `v`-th insertion, which carries
      trade `v - start` of that section. */
  lemma DrawSelectsCommand(cat: Catalogue, i: nat, v: int)
    requires i < |cat|
    requires InRange(SectionRange(cat, i), v)
    ensures 0 <= v - SectionRange(cat, i).start < |cat[i].trades|
    ensures 0 <= v - 1 < |TradeCommands(cat)|
    ensures TradeCommands(cat)[v - 1] == Insert(v, cat[i].trades[v - SectionRange(cat, i).start])
  {
    var j := v - SectionRange(cat, i).start;
    TradeCommandAt(cat, i, j);
    assert TradePosition(cat, i, j) == v - 1;
  }

  /** The central agreement: any value the scoreboard may draw for section `i`
      is the guard of the trade line that installs trade `v - start` of
      section `i`. */
  lemma DrawSelectsSectionTrade(cat: Catalogue, i: nat, v: int)
    requires i < |cat|
    requires InRange(SectionRange(cat, i), v)
    ensures 0 <= v - SectionRange(cat, i).start < |cat[i].trades|
    ensures 0 <= v - 1 < |GenerateTradeCommands(cat)|
    ensures Installs(GenerateTradeCommands(cat)[v - 1], v, cat[i].trades[v - SectionRange(cat, i).start])
  {
    DrawSelectsCommand(cat, i, v);
    RenderedInsertDecodes(cat, v - 1, v, cat[i].trades[v - SectionRange(cat, i).start]);
  }
}
