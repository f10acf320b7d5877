/** The `Trade` record of trades.py and its two compact JSON encodings:
    `add_nbt`, the offer inserted into a trader's recipe list, and
    `unless_nbt`, the key whose absence guards that insertion.
    Both are `json.dumps(..., separators=(',', ':'))` of a dict written in
    the key order buy{id,count}, sell{id,count}[, priceMultiplier, maxUses]. */
module Trades {
  import opened Wrappers
  import opened Text
  import opened Json

  /** Characters that can appear in `json.dumps` of a Python float
      (`repr` digits, sign, point, exponent, `Infinity`, `NaN`). */
  predicate IsFloatChar(c: char) {
    IsDigit(c) || c in ".-+eEInfityaN"
  }

  predicate IsFloatRepr(s: string) {
    |s| > 0 && forall i :: 0 <= i < |s| ==> IsFloatChar(s[i])
  }

  /** The rendering of `price_multiplier`, kept as an opaque token. */
  type FloatRepr = s: string | IsFloatRepr(s) witness "0.0"

  datatype Trade = Trade(
    buyItem: string,
    buyQuantity: int,
    sellItem: string,
    sellQuantity: int,
    priceMultiplier: FloatRepr,
    maxUses: int,
    weight: int)

  /** One `{"id":…,"count":…}` object. */
  datatype ItemStack = ItemStack(id: string, count: int)

  /** The fields `unless_nbt` serialises. */
  datatype OfferKey = OfferKey(buy: ItemStack, sell: ItemStack)

  /** The fields `add_nbt` serialises. */
  datatype Offer = Offer(buy: ItemStack, sell: ItemStack, priceMultiplier: FloatRepr, maxUses: int)

  function KeyOf(t: Trade): OfferKey {
    OfferKey(ItemStack(t.buyItem, t.buyQuantity), ItemStack(t.sellItem, t.sellQuantity))
  }

  function OfferOf(t: Trade): Offer {
    Offer(ItemStack(t.buyItem, t.buyQuantity), ItemStack(t.sellItem, t.sellQuantity), t.priceMultiplier, t.maxUses)
  }

  const IdKey := "{\"id\":"
  const CountKey := ",\"count\":"
  const BuyKey := "{\"buy\":"
  const SellKey := ",\"sell\":"
  const PriceKey := ",\"priceMultiplier\":"
  const MaxUsesKey := ",\"maxUses\":"

  lemma IntToStringPrintable(i: int)
    ensures AllPrintableAscii(IntToString(i))
  {
  }

  function EncodeStack(st: ItemStack): string {
    IdKey + JsonString(st.id) + CountKey + IntToString(st.count) + "}"
  }

  /** The buy and sell objects with the separators that precede them; the
      shared head of both encodings. */
  function EncodeBuySell(buy: ItemStack, sell: ItemStack): string {
    BuyKey + EncodeStack(buy) + SellKey + EncodeStack(sell)
  }

  lemma EncodeStackPrintable(st: ItemStack)
    ensures AllPrintableAscii(EncodeStack(st))
  {
    IntToStringPrintable(st.count);
    PrintableConcat5(IdKey, JsonString(st.id), CountKey, IntToString(st.count), "}");
  }

  lemma EncodeBuySellPrintable(buy: ItemStack, sell: ItemStack)
    ensures AllPrintableAscii(EncodeBuySell(buy, sell))
  {
    EncodeStackPrintable(buy);
    EncodeStackPrintable(sell);
    PrintableConcat4(BuyKey, EncodeStack(buy), SellKey, EncodeStack(sell));
  }

  /** `Trade.unless_nbt`; with `ensure_ascii` the text is printable ASCII. */
  function UnlessNbt(t: Trade): (r: string)
    ensures AllPrintableAscii(r)
  {
    var k := KeyOf(t);
    EncodeBuySellPrintable(k.buy, k.sell);
    PrintableConcat(EncodeBuySell(k.buy, k.sell), "}");
    EncodeBuySell(k.buy, k.sell) + "}"
  }

  lemma FloatReprPrintable(f: FloatRepr)
    ensures AllPrintableAscii(f)
  {
    forall i | 0 <= i < |f|
      ensures IsPrintableAscii(f[i])
    {
      assert IsFloatChar(f[i]);
    }
  }

  /** The fields `add_nbt` writes after the buy and sell objects. */
  function OfferTail(o: Offer): (r: string)
    ensures AllPrintableAscii(r)
  {
    IntToStringPrintable(o.maxUses);
    FloatReprPrintable(o.priceMultiplier);
    PrintableConcat5(PriceKey, o.priceMultiplier, MaxUsesKey, IntToString(o.maxUses), "}");
    PriceKey + o.priceMultiplier + MaxUsesKey + IntToString(o.maxUses) + "}"
  }

  /** `Trade.add_nbt`; with `ensure_ascii` the text is printable ASCII. */
  function AddNbt(t: Trade): (r: string)
    ensures AllPrintableAscii(r)
  {
    var o := OfferOf(t);
    EncodeBuySellPrintable(o.buy, o.sell);
    PrintableConcat(EncodeBuySell(o.buy, o.sell), OfferTail(o));
    EncodeBuySell(o.buy, o.sell) + OfferTail(o)
  }

  /* Decoders: they accept exactly the layout above and answer what follows. */

  function DecodeStack(s: string): Option<(ItemStack, string)> {
    var a :- Expect(s, IdKey);
    var (id, b) :- DecodeString(a);
    var c :- Expect(b, CountKey);
    var (n, d) :- DecodeInt(c);
    var e :- Expect(d, "}");
    Some((ItemStack(id, n), e))
  }

  function DecodeBuySell(s: string): Option<(ItemStack, ItemStack, string)> {
    var a :- Expect(s, BuyKey);
    var (buy, b) :- DecodeStack(a);
    var c :- Expect(b, SellKey);
    var (sell, d) :- DecodeStack(c);
    Some((buy, sell, d))
  }

  /** Length of the longest prefix of `s` made of float characters. */
  function FloatPrefixLength(s: string): (k: nat)
    ensures k <= |s|
    ensures forall i :: 0 <= i < k ==> IsFloatChar(s[i])
    decreases |s|
  {
    if |s| == 0 || !IsFloatChar(s[0]) then 0 else 1 + FloatPrefixLength(s[1..])
  }

  function DecodeFloatRepr(s: string): Option<(FloatRepr, string)> {
    var k := FloatPrefixLength(s);
    if k == 0 then None
    else
      var f: FloatRepr := s[..k];
      Some((f, s[k..]))
  }

  function DecodeKey(s: string): Option<(OfferKey, string)> {
    var (buy, sell, a) :- DecodeBuySell(s);
    var b :- Expect(a, "}");
    Some((OfferKey(buy, sell), b))
  }

  /** Reads the fields `OfferTail` writes: price multiplier and use cap. */
  function DecodeOfferTail(s: string): Option<(FloatRepr, int, string)> {
    var b :- Expect(s, PriceKey);
    var (price, c) :- DecodeFloatRepr(b);
    var d :- Expect(c, MaxUsesKey);
    var (uses, e) :- DecodeInt(d);
    var f :- Expect(e, "}");
    Some((price, uses, f))
  }

  function DecodeOffer(s: string): Option<(Offer, string)> {
    var (buy, sell, a) :- DecodeBuySell(s);
    var (price, uses, b) :- DecodeOfferTail(a);
    Some((Offer(buy, sell, price, uses), b))
  }

  /* Round trips. Each decoder is first characterised by the results of its
     stages; the round-trip lemmas then supply those results. */

  lemma DecodeStackStep(s: string, st: ItemStack, a: string, b: string, c: string, d: string, rest: string)
    requires Expect(s, IdKey) == Some(a)
    requires DecodeString(a) == Some((st.id, b))
    requires Expect(b, CountKey) == Some(c)
    requires DecodeInt(c) == Some((st.count, d))
    requires Expect(d, "}") == Some(rest)
    ensures DecodeStack(s) == Some((st, rest))
  {
  }

  lemma DecodeBuySellStep(s: string, buy: ItemStack, sell: ItemStack, a: string, b: string, c: string, rest: string)
    requires Expect(s, BuyKey) == Some(a)
    requires DecodeStack(a) == Some((buy, b))
    requires Expect(b, SellKey) == Some(c)
    requires DecodeStack(c) == Some((sell, rest))
    ensures DecodeBuySell(s) == Some((buy, sell, rest))
  {
  }

  lemma DecodeEncodedStack(st: ItemStack, rest: string)
    ensures DecodeStack(EncodeStack(st) + rest) == Some((st, rest))
  {
    var n := IntToString(st.count);
    var d := "}" + rest;
    var c := n + d;
    var b := CountKey + c;
    var a := JsonString(st.id) + b;
    Regroup5(IdKey, JsonString(st.id), CountKey, n, "}", rest);
    ExpectLiteral(IdKey, a);
    DecodeJsonString(st.id, b);
    ExpectLiteral(CountKey, c);
    DecodeIntToString(st.count, d);
    ExpectLiteral("}", rest);
    DecodeStackStep(IdKey + a, st, a, b, c, d, rest);
  }

  lemma DecodeEncodedBuySell(buy: ItemStack, sell: ItemStack, rest: string)
    ensures DecodeBuySell(EncodeBuySell(buy, sell) + rest) == Some((buy, sell, rest))
  {
    var c := EncodeStack(sell) + rest;
    var b := SellKey + c;
    var a := EncodeStack(buy) + b;
    Regroup4(BuyKey, EncodeStack(buy), SellKey, EncodeStack(sell), rest);
    ExpectLiteral(BuyKey, a);
    DecodeEncodedStack(buy, b);
    ExpectLiteral(SellKey, c);
    DecodeEncodedStack(sell, rest);
    DecodeBuySellStep(BuyKey + a, buy, sell, a, b, c, rest);
  }

  lemma DecodeEncodedFloat(f: FloatRepr, rest: string)
    requires |rest| == 0 || !IsFloatChar(rest[0])
    ensures DecodeFloatRepr(f + rest) == Some((f, rest))
  {
    FloatPrefixOfFloat(f, rest);
    assert (f + rest)[..|f|] == f;
    assert (f + rest)[|f|..] == rest;
  }

  lemma {:induction false} FloatPrefixOfFloat(x: string, y: string)
    requires forall i :: 0 <= i < |x| ==> IsFloatChar(x[i])
    requires |y| == 0 || !IsFloatChar(y[0])
    ensures FloatPrefixLength(x + y) == |x|
    decreases |x|
  {
    if |x| > 0 {
      assert (x + y)[1..] == x[1..] + y;
      FloatPrefixOfFloat(x[1..], y);
    }
  }

  lemma DecodeKeyStep(s: string, key: OfferKey, a: string, rest: string)
    requires DecodeBuySell(s) == Some((key.buy, key.sell, a))
    requires Expect(a, "}") == Some(rest)
    ensures DecodeKey(s) == Some((key, rest))
  {
  }

  lemma DecodeOfferTailStep(s: string, price: FloatRepr, uses: int, b: string, c: string, d: string, e: string, rest: string)
    requires Expect(s, PriceKey) == Some(b)
    requires DecodeFloatRepr(b) == Some((price, c))
    requires Expect(c, MaxUsesKey) == Some(d)
    requires DecodeInt(d) == Some((uses, e))
    requires Expect(e, "}") == Some(rest)
    ensures DecodeOfferTail(s) == Some((price, uses, rest))
  {
  }

  lemma DecodeOfferStep(s: string, o: Offer, a: string, rest: string)
    requires DecodeBuySell(s) == Some((o.buy, o.sell, a))
    requires DecodeOfferTail(a) == Some((o.priceMultiplier, o.maxUses, rest))
    ensures DecodeOffer(s) == Some((o, rest))
  {
  }

  lemma DecodeEncodedOfferTail(o: Offer, rest: string)
    ensures DecodeOfferTail(OfferTail(o) + rest) == Some((o.priceMultiplier, o.maxUses, rest))
  {
    var e := "}" + rest;
    var d := IntToString(o.maxUses) + e;
    var c := MaxUsesKey + d;
    var b := o.priceMultiplier + c;
    Regroup5(PriceKey, o.priceMultiplier, MaxUsesKey, IntToString(o.maxUses), "}", rest);
    ExpectLiteral(PriceKey, b);
    DecodeEncodedFloat(o.priceMultiplier, c);
    ExpectLiteral(MaxUsesKey, d);
    DecodeIntToString(o.maxUses, e);
    ExpectLiteral("}", rest);
    DecodeOfferTailStep(PriceKey + b, o.priceMultiplier, o.maxUses, b, c, d, e, rest);
  }

  /** `unless_nbt` reads back as exactly the key it was built from. */
  lemma DecodeUnlessNbt(t: Trade, rest: string)
    ensures DecodeKey(UnlessNbt(t) + rest) == Some((KeyOf(t), rest))
  {
    var k := KeyOf(t);
    var a := "}" + rest;
    Regroup2(EncodeBuySell(k.buy, k.sell), "}", rest);
    DecodeEncodedBuySell(k.buy, k.sell, a);
    ExpectLiteral("}", rest);
    DecodeKeyStep(EncodeBuySell(k.buy, k.sell) + a, k, a, rest);
  }

  /** `add_nbt` reads back as exactly the offer it was built from. */
  lemma DecodeAddNbt(t: Trade, rest: string)
    ensures DecodeOffer(AddNbt(t) + rest) == Some((OfferOf(t), rest))
  {
    var o := OfferOf(t);
    var a := OfferTail(o) + rest;
    Regroup2(EncodeBuySell(o.buy, o.sell), OfferTail(o), rest);
    DecodeEncodedBuySell(o.buy, o.sell, a);
    DecodeEncodedOfferTail(o, rest);
    DecodeOfferStep(EncodeBuySell(o.buy, o.sell) + a, o, a, rest);
  }

  /** The absence-check key depends on the buy and sell item and count and on
      nothing else: two trades share it exactly when those four fields agree,
      so re-tuning the price multiplier, max uses or weight keeps the key. */
  lemma UnlessNbtDeterminesKey(t1: Trade, t2: Trade)
    ensures UnlessNbt(t1) == UnlessNbt(t2) <==> KeyOf(t1) == KeyOf(t2)
  {
    if UnlessNbt(t1) == UnlessNbt(t2) {
      DecodeUnlessNbt(t1, "");
      DecodeUnlessNbt(t2, "");
      assert UnlessNbt(t1) + "" == UnlessNbt(t2) + "";
    }
  }

  /** The inserted offer changes whenever any field other than the weight
      changes, and only then. */
  lemma AddNbtDeterminesOffer(t1: Trade, t2: Trade)
    ensures AddNbt(t1) == AddNbt(t2) <==> OfferOf(t1) == OfferOf(t2)
  {
    if AddNbt(t1) == AddNbt(t2) {
      DecodeAddNbt(t1, "");
      DecodeAddNbt(t2, "");
      assert AddNbt(t1) + "" == AddNbt(t2) + "";
    }
  }

  /** `unless_nbt` without its closing brace is a proper prefix of `add_nbt`,
      which continues with the price multiplier and the use cap. */
  lemma UnlessNbtPrefixOfAddNbt(t: Trade)
    ensures |UnlessNbt(t)| > 0 && UnlessNbt(t)[|UnlessNbt(t)| - 1] == '}'
    ensures AddNbt(t) == UnlessNbt(t)[..|UnlessNbt(t)| - 1] + OfferTail(OfferOf(t))
    ensures OfferTail(OfferOf(t)) == PriceKey + t.priceMultiplier + MaxUsesKey + IntToString(t.maxUses) + "}"
  {
    var k := KeyOf(t);
    var head := EncodeBuySell(k.buy, k.sell);
    assert UnlessNbt(t)[..|UnlessNbt(t)| - 1] == head;
  }
}
