/**
 The bill of the stored cart, and the stateless quote of a client's list: two loops over two
 shapes of the same basket, and when they agree.
 */
module CartQuote {
  import opened Common
  import opened Cart
  import opened Pricing

  /** The three totals a bill is computed from. */
  datatype Measure = Subtotal | Savings | Count

  function PerUnit(m: Measure, price: int, mrp: int): int {
    match m
    case Subtotal => price
    case Savings => if mrp > price then mrp - price else 0
    case Count => 1
  }

  function Weight(m: Measure, shop: Shop, k: Key): int {
    PerUnit(m, shop.Price(k), shop.Mrp(k))
  }

  function ItemTotal(items: seq<Item>, shop: Shop, m: Measure): int {
    if items == [] then 0
    else
      var last := items[|items| - 1];
      ItemTotal(items[..|items| - 1], shop, m) + PerUnit(m, last.price, shop.Mrp(last.key)) * last.quantity
  }

  datatype Priced = Priced(bill: Bill, count: int)

  function PricedFrom(cfg: Config, zone: Option<Zone>, coupon: real, subtotal: int, savings: int, count: int): Priced {
    Priced(ComputeBill(cfg, zone, Rupees(subtotal), Rupees(savings), coupon), count)
  }

  /** The bill of the rows of a cart. */
  function BillOf(items: seq<Item>, shop: Shop, cfg: Config, zone: Option<Zone>, coupon: real): Priced {
    PricedFrom(cfg, zone, coupon, ItemTotal(items, shop, Subtotal), ItemTotal(items, shop, Savings), ItemTotal(items, shop, Count))
  }

  method CartBill(cart: CartRow, shop: Shop, cfg: Config, zone: Option<Zone>, coupon: real) returns (r: Priced)
    ensures r == BillOf(cart.items, shop, cfg, zone, coupon)
  {
    var items := cart.items;
    var subtotal, savings, count := 0, 0, 0;
    for i := 0 to |items|
      invariant subtotal == ItemTotal(items[..i], shop, Subtotal)
      invariant savings == ItemTotal(items[..i], shop, Savings)
      invariant count == ItemTotal(items[..i], shop, Count)
    {
      assert items[..i + 1][..i] == items[..i];
      var it := items[i];
      subtotal := subtotal + it.price * it.quantity;
      if shop.Mrp(it.key) > it.price {
        savings := savings + (shop.Mrp(it.key) - it.price) * it.quantity;
      }
      count := count + it.quantity;
    }
    assert items[..|items|] == items;
    r := PricedFrom(cfg, zone, coupon, subtotal, savings, count);
  }

  /** The bill's figures are those of the totals it is made from. */
  lemma PricedFigures(cfg: Config, zone: Option<Zone>, coupon: real, subtotal: int, savings: int, count: int)
    ensures var r := PricedFrom(cfg, zone, coupon, subtotal, savings, count);
            r.bill.subtotal == subtotal && r.bill.savings == savings && r.count == count
  {
    hide Q, Rupees, Gst, PlatformFee;
    QOfRupees(subtotal);
    QOfRupees(savings);
  }

  /** An empty cart comes to nothing; each row adds its price, and its saving on the list price, times its quantity. */
  lemma BillAddsUp(items: seq<Item>, x: Item, shop: Shop, cfg: Config, zone: Option<Zone>, coupon: real)
    requires x.key.product in shop.mrp
    ensures var none := BillOf([], shop, cfg, zone, coupon);
            none.bill.subtotal == 0 && none.bill.savings == 0 && none.count == 0
    ensures var before, after := BillOf(items, shop, cfg, zone, coupon), BillOf(items + [x], shop, cfg, zone, coupon);
            var list := shop.mrp[x.key.product];
            && after.bill.subtotal == before.bill.subtotal + x.price * x.quantity
            && after.bill.savings == before.bill.savings + (if list > x.price then list - x.price else 0) * x.quantity
            && after.count == before.count + x.quantity
  {
    hide PricedFrom;
    forall m: Measure
      ensures ItemTotal([], shop, m) == 0
    {
    }
    assert (items + [x])[..|items|] == items;
    forall all: seq<Item>
      ensures var r := BillOf(all, shop, cfg, zone, coupon);
              && r.bill.subtotal == ItemTotal(all, shop, Subtotal) && r.bill.savings == ItemTotal(all, shop, Savings)
              && r.count == ItemTotal(all, shop, Count)
    {
      PricedFigures(cfg, zone, coupon, ItemTotal(all, shop, Subtotal), ItemTotal(all, shop, Savings), ItemTotal(all, shop, Count));
    }
  }

  /* ---- The stateless quote ---- */

  /** One element of the posted list; a quantity that is absent or unreadable counts as none. */
  datatype RawItem =
    | NotAnObject
    | RawItem(product: Option<nat>, quantity: Option<int>, variant: Option<nat>)

  /** The line the quote makes of an element, if it does not skip it. */
  function QuotedLine(raw: RawItem, shop: Shop): Option<Line> {
    if raw.NotAnObject? || raw.product == None || !shop.Sells(raw.product.value) then None
    else if raw.quantity == None || raw.quantity.value <= 0 then None
    else
      var scoped := Key(raw.product.value, raw.variant);
      // A variant of another product is ignored, not refused.
      var k := if raw.variant.Some? && scoped in shop.delta then scoped else Key(raw.product.value, None);
      Some(Line(k, raw.quantity.value))
  }

  function QuotedLines(raws: seq<RawItem>, shop: Shop): seq<Line> {
    if raws == [] then []
    else
      var before := QuotedLines(raws[..|raws| - 1], shop);
      match QuotedLine(raws[|raws| - 1], shop)
      case None => before
      case Some(l) => before + [l]
  }

  function LineTotal(lines: seq<Line>, shop: Shop, m: Measure): int {
    if lines == [] then 0
    else
      var last := lines[|lines| - 1];
      LineTotal(lines[..|lines| - 1], shop, m) + if last.quantity > 0 then Weight(m, shop, last.key) * last.quantity else 0
  }

  function QuoteFor(raws: seq<RawItem>, shop: Shop, cfg: Config, zone: Option<Zone>, coupon: real): Priced {
    var lines := QuotedLines(raws, shop);
    PricedFrom(cfg, zone, coupon, LineTotal(lines, shop, Subtotal), LineTotal(lines, shop, Savings), LineTotal(lines, shop, Count))
  }

  method Quote(raws: seq<RawItem>, shop: Shop, cfg: Config, zone: Option<Zone>, coupon: real) returns (r: Priced)
    ensures r == QuoteFor(raws, shop, cfg, zone, coupon)
  {
    hide QuotedLines, LineTotal, PricedFrom, Weight;
    QuotedNothing(shop);
    var subtotal, savings, count := 0, 0, 0;
    for i := 0 to |raws|
      invariant subtotal == LineTotal(QuotedLines(raws[..i], shop), shop, Subtotal)
      invariant savings == LineTotal(QuotedLines(raws[..i], shop), shop, Savings)
      invariant count == LineTotal(QuotedLines(raws[..i], shop), shop, Count)
    {
      ghost var before := QuotedLines(raws[..i], shop);
      var it := raws[i];
      assert raws[..i + 1] == raws[..i] + [it];
      QuotedNext(raws[..i], it, shop);
      if it.NotAnObject? {
        continue;
      }
      if it.product == None || !shop.Sells(it.product.value) {
        continue;
      }
      var qty := if it.quantity.Some? then it.quantity.value else 0;
      if qty <= 0 {
        continue;
      }
      var basePrice := shop.base[it.product.value];
      var mrp := shop.mrp[it.product.value];
      var scoped := Key(it.product.value, it.variant);
      var price := basePrice + if it.variant.Some? && scoped in shop.delta then shop.delta[scoped] else 0;
      subtotal := subtotal + price * qty;
      if mrp > price {
        savings := savings + (mrp - price) * qty;
      }
      count := count + qty;
      ghost var l := QuotedLine(it, shop).value;
      LineTotalNext(before, l, shop, Subtotal);
      LineTotalNext(before, l, shop, Savings);
      LineTotalNext(before, l, shop, Count);
      WeightOfLine(l.key, price, mrp, shop);
    }
    assert raws[..|raws|] == raws;
    r := PricedFrom(cfg, zone, coupon, subtotal, savings, count);
  }

  lemma LineTotalNext(lines: seq<Line>, l: Line, shop: Shop, m: Measure)
    ensures LineTotal(lines + [l], shop, m)
         == LineTotal(lines, shop, m) + if l.quantity > 0 then Weight(m, shop, l.key) * l.quantity else 0
  {
    hide Weight;
    assert (lines + [l])[..|lines|] == lines;
  }

  lemma QuotedNothing(shop: Shop)
    ensures QuotedLines([], shop) == [] && forall m :: LineTotal([], shop, m) == 0
  {
  }

  lemma WeightOfLine(k: Key, price: int, mrp: int, shop: Shop)
    requires shop.Price(k) == price && shop.Mrp(k) == mrp
    ensures Weight(Subtotal, shop, k) == price && Weight(Count, shop, k) == 1
    ensures Weight(Savings, shop, k) == if mrp > price then mrp - price else 0
  {
  }

  lemma QuotedNext(raws: seq<RawItem>, raw: RawItem, shop: Shop)
    ensures QuotedLines(raws + [raw], shop)
         == match QuotedLine(raw, shop) case None => QuotedLines(raws, shop) case Some(l) => QuotedLines(raws, shop) + [l]
  {
    hide QuotedLine;
    assert (raws + [raw])[..|raws|] == raws;
  }

  /** The elements the quote passes over. */
  predicate Skipped(raw: RawItem, shop: Shop) {
    || raw.NotAnObject? || raw.product == None
    || raw.product.value !in shop.base || raw.product.value !in shop.mrp
    || raw.quantity == None || raw.quantity.value <= 0
  }

  lemma QuotedTotals(raws: seq<RawItem>, raw: RawItem, shop: Shop, m: Measure)
    ensures var before, after := LineTotal(QuotedLines(raws, shop), shop, m), LineTotal(QuotedLines(raws + [raw], shop), shop, m);
            if Skipped(raw, shop) then after == before
            else
              var p, n := raw.product.value, raw.quantity.value;
              var scoped := Key(p, raw.variant);
              var unit := shop.base[p] + if raw.variant.Some? && scoped in shop.delta then shop.delta[scoped] else 0;
              after == before + PerUnit(m, unit, shop.mrp[p]) * n
  {
    hide QuotedLines, LineTotal;
    QuotedNext(raws, raw, shop);
    if !Skipped(raw, shop) {
      LineTotalNext(QuotedLines(raws, shop), QuotedLine(raw, shop).value, shop, m);
    }
  }

  /**
   A quote of nothing comes to nothing; each element that is not passed over adds its quantity
   times the price of the product, with the surcharge of a variant of that product and of no
   other, and saves what that is below the list price, never less than nothing.
   */
  lemma QuoteAddsUp(raws: seq<RawItem>, raw: RawItem, shop: Shop, cfg: Config, zone: Option<Zone>, coupon: real)
    ensures var none := QuoteFor([], shop, cfg, zone, coupon);
            none.bill.subtotal == 0 && none.bill.savings == 0 && none.count == 0
    ensures var before, after := QuoteFor(raws, shop, cfg, zone, coupon), QuoteFor(raws + [raw], shop, cfg, zone, coupon);
            if Skipped(raw, shop) then after == before
            else
              var p, n := raw.product.value, raw.quantity.value;
              var scoped := Key(p, raw.variant);
              var unit := shop.base[p] + if raw.variant.Some? && scoped in shop.delta then shop.delta[scoped] else 0;
              && after.bill.subtotal == before.bill.subtotal + unit * n
              && after.bill.savings == before.bill.savings + (if shop.mrp[p] > unit then shop.mrp[p] - unit else 0) * n
              && after.count == before.count + n
  {
    hide PricedFrom, QuotedLines, LineTotal;
    QuotedNothing(shop);
    forall m: Measure
      ensures LineTotal(QuotedLines([], shop), shop, m) == 0
    {
    }
    QuotedTotals(raws, raw, shop, Subtotal);
    QuotedTotals(raws, raw, shop, Savings);
    QuotedTotals(raws, raw, shop, Count);
    QuoteFigures([], shop, cfg, zone, coupon);
    QuoteFigures(raws, shop, cfg, zone, coupon);
    QuoteFigures(raws + [raw], shop, cfg, zone, coupon);
  }

  lemma QuoteFigures(raws: seq<RawItem>, shop: Shop, cfg: Config, zone: Option<Zone>, coupon: real)
    ensures var r, lines := QuoteFor(raws, shop, cfg, zone, coupon), QuotedLines(raws, shop);
            && r == PricedFrom(cfg, zone, coupon, LineTotal(lines, shop, Subtotal), LineTotal(lines, shop, Savings), LineTotal(lines, shop, Count))
            && r.bill.subtotal == LineTotal(lines, shop, Subtotal) && r.bill.savings == LineTotal(lines, shop, Savings)
            && r.count == LineTotal(lines, shop, Count)
  {
    hide PricedFrom, QuotedLines, LineTotal;
    var lines := QuotedLines(raws, shop);
    PricedFigures(cfg, zone, coupon, LineTotal(lines, shop, Subtotal), LineTotal(lines, shop, Savings), LineTotal(lines, shop, Count));
  }

  /* ---- Regrouping lines by key ---- */

  /** The rows' total, were each row to carry everything the lines ask of its key. */
  function RowTotal(items: seq<Item>, lines: seq<Line>, shop: Shop, m: Measure): int {
    if items == [] then 0
    else
      var last := items[|items| - 1];
      RowTotal(items[..|items| - 1], lines, shop, m) + Weight(m, shop, last.key) * Wanted(lines, last.key)
  }

  /** A line falls on exactly one row. */
  lemma {:induction false} RowTotalStep(items: seq<Item>, lines: seq<Line>, l: Line, shop: Shop, m: Measure)
    requires UniqueKeys(items)
    ensures RowTotal(items, lines + [l], shop, m)
         == RowTotal(items, lines, shop, m)
            + if Find(items, l.key).Some? && l.quantity > 0 then Weight(m, shop, l.key) * l.quantity else 0
  {
    if items != [] {
      hide Weight;
      var last := items[|items| - 1];
      RowTotalStep(items[..|items| - 1], lines, l, shop, m);
      assert (lines + [l])[..|lines|] == lines;
      if last.key == l.key && l.quantity > 0 {
        Distribute(Weight(m, shop, last.key), Wanted(lines, last.key), l.quantity);
      }
    }
  }

  lemma Distribute(w: int, a: int, b: int)
    ensures w * (a + b) == w * a + w * b
  {
  }

  lemma {:induction false} RowTotalIsLineTotal(items: seq<Item>, lines: seq<Line>, shop: Shop, m: Measure)
    requires UniqueKeys(items)
    requires forall l | l in lines && l.quantity > 0 :: Find(items, l.key).Some?
    ensures RowTotal(items, lines, shop, m) == LineTotal(lines, shop, m)
  {
    hide Weight, UniqueKeys, Find;
    if lines == [] {
      RowTotalOfNothing(items, shop, m);
    } else {
      var before, last := lines[..|lines| - 1], lines[|lines| - 1];
      assert lines == before + [last];
      assert last in lines;
      RowTotalIsLineTotal(items, before, shop, m);
      RowTotalStep(items, before, last, shop, m);
    }
  }

  lemma {:induction false} RowTotalOfNothing(items: seq<Item>, shop: Shop, m: Measure)
    ensures RowTotal(items, [], shop, m) == 0
  {
    if items != [] {
      RowTotalOfNothing(items[..|items| - 1], shop, m);
    }
  }

  lemma {:induction false} AskedIsWanted(lines: seq<Line>, l: Line)
    requires l in lines && l.quantity > 0
    ensures Wanted(lines, l.key) > 0
  {
    var before, last := lines[..|lines| - 1], lines[|lines| - 1];
    assert lines == before + [last];
    WantedNonNegative(before, l.key);
    if l != last {
      AskedIsWanted(before, l);
    }
  }

  lemma {:induction false} WantedNonNegative(lines: seq<Line>, k: Key)
    ensures Wanted(lines, k) >= 0
  {
    if lines != [] {
      WantedNonNegative(lines[..|lines| - 1], k);
    }
  }

  /** The rows of a replaced cart: today's price, the capped quantity, and a row for every key asked for. */
  predicate RowsOf(items: seq<Item>, lines: seq<Line>, shop: Shop) {
    forall x | x in items :: x.price == shop.Price(x.key) && x.quantity == Min(MAX_LINE_QUANTITY, Wanted(lines, x.key))
  }

  lemma ReplacedRows(items: seq<Item>, lines: seq<Line>, shop: Shop)
    requires UniqueKeys(items) && Validated(lines)
    ensures var r := Replaced(items, lines, shop);
            UniqueKeys(r) && RowsOf(r, lines, shop) && forall l | l in lines && l.quantity > 0 :: Find(r, l.key).Some?
  {
    hide UniqueKeys, Replaced, Find, Validated;
    var r := Replaced(items, lines, shop);
    ReplaceIsAbsolute(items, lines, shop, Key(0, None));
    forall x | x in r
      ensures x.price == shop.Price(x.key) && x.quantity == Min(MAX_LINE_QUANTITY, Wanted(lines, x.key))
    {
      ReplaceIsAbsolute(items, lines, shop, x.key);
      MergedIsCappedTotal(lines, x.key);
      FindMember(r, x);
    }
    forall l | l in lines && l.quantity > 0
      ensures Find(r, l.key).Some?
    {
      ReplaceIsAbsolute(items, lines, shop, l.key);
      MergedIsCappedTotal(lines, l.key);
      AskedIsWanted(lines, l);
    }
  }

  lemma {:induction false} UncappedRows(items: seq<Item>, lines: seq<Line>, shop: Shop, m: Measure)
    requires RowsOf(items, lines, shop)
    requires forall k :: Wanted(lines, k) <= MAX_LINE_QUANTITY
    ensures ItemTotal(items, shop, m) == RowTotal(items, lines, shop, m)
  {
    hide Wanted;
    if items != [] {
      assert items == items[..|items| - 1] + [items[|items| - 1]];
      assert items[|items| - 1] in items;
      UncappedRows(items[..|items| - 1], lines, shop, m);
    }
  }

  /** The count can only lose to the cap, and loses exactly when some row is over it. */
  lemma {:induction false} CountLost(items: seq<Item>, lines: seq<Line>, shop: Shop)
    requires RowsOf(items, lines, shop)
    ensures ItemTotal(items, shop, Count) <= RowTotal(items, lines, shop, Count)
    ensures ItemTotal(items, shop, Count) == RowTotal(items, lines, shop, Count)
       <==> forall x | x in items :: Wanted(lines, x.key) <= MAX_LINE_QUANTITY
  {
    hide Wanted;
    if items != [] {
      assert items == items[..|items| - 1] + [items[|items| - 1]];
      assert items[|items| - 1] in items;
      CountLost(items[..|items| - 1], lines, shop);
    }
  }

  /** A request as the quote would be posted it. */
  function AsRaw(lines: seq<Line>): seq<RawItem> {
    if lines == [] then []
    else
      var last := lines[|lines| - 1];
      AsRaw(lines[..|lines| - 1]) + [RawItem(Some(last.key.product), Some(last.quantity), last.key.variant)]
  }

  /** Lines of products on sale, each variant belonging to its product. */
  predicate InCatalogue(lines: seq<Line>, shop: Shop) {
    forall l | l in lines :: shop.Sells(l.key.product) && (l.key.variant.Some? ==> l.key in shop.delta)
  }

  lemma {:induction false} QuoteReadsTheLines(lines: seq<Line>, shop: Shop, m: Measure)
    requires InCatalogue(lines, shop)
    ensures LineTotal(QuotedLines(AsRaw(lines), shop), shop, m) == LineTotal(lines, shop, m)
  {
    hide Weight, LineTotal, QuotedLines, QuotedLine;
    QuotedNothing(shop);
    if lines != [] {
      var before, last := lines[..|lines| - 1], lines[|lines| - 1];
      var raw := RawItem(Some(last.key.product), Some(last.quantity), last.key.variant);
      assert lines == before + [last];
      assert last in lines;
      QuoteReadsTheLines(before, shop, m);
      QuotedNext(AsRaw(before), raw, shop);
      QuotedAsAsked(last, shop);
      LineTotalNext(QuotedLines(AsRaw(before), shop), last, shop, m);
      LineTotalNext(before, last, shop, m);
    }
  }

  lemma QuotedAsAsked(l: Line, shop: Shop)
    requires shop.Sells(l.key.product) && (l.key.variant.Some? ==> l.key in shop.delta)
    ensures QuotedLine(RawItem(Some(l.key.product), Some(l.quantity), l.key.variant), shop)
         == if l.quantity > 0 then Some(l) else None
  {
  }

  /** The quote of some lines, and the bill of any cart after it was replaced by them. */
  function QuoteOf(lines: seq<Line>, shop: Shop, cfg: Config, zone: Option<Zone>, coupon: real): Priced {
    QuoteFor(AsRaw(lines), shop, cfg, zone, coupon)
  }

  function BillAfter(items: seq<Item>, lines: seq<Line>, shop: Shop, cfg: Config, zone: Option<Zone>, coupon: real): Priced {
    BillOf(Replaced(items, lines, shop), shop, cfg, zone, coupon)
  }

  /**
   The quote is the bill: for lines a replace would accept, whatever the cart held before, the
   two agree on every figure exactly when no key asks for more than the cap in total.
   */
  lemma QuoteIsTheBillIff(items: seq<Item>, lines: seq<Line>, shop: Shop, cfg: Config, zone: Option<Zone>, coupon: real)
    requires UniqueKeys(items) && Validated(lines) && InCatalogue(lines, shop)
    ensures QuoteOf(lines, shop, cfg, zone, coupon) == BillAfter(items, lines, shop, cfg, zone, coupon)
       <==> forall k :: Wanted(lines, k) <= MAX_LINE_QUANTITY
  {
    hide UniqueKeys, Validated, InCatalogue, Wanted, Find, Replaced, QuotedLines, ComputeBill, ItemTotal, LineTotal;
    var r := Replaced(items, lines, shop);
    ReplacedRows(items, lines, shop);
    forall m: Measure
      ensures LineTotal(QuotedLines(AsRaw(lines), shop), shop, m) == RowTotal(r, lines, shop, m)
    {
      QuoteReadsTheLines(lines, shop, m);
      RowTotalIsLineTotal(r, lines, shop, m);
    }
    if forall k :: Wanted(lines, k) <= MAX_LINE_QUANTITY {
      UncappedRows(r, lines, shop, Subtotal);
      UncappedRows(r, lines, shop, Savings);
      UncappedRows(r, lines, shop, Count);
    } else {
      var k :| Wanted(lines, k) > MAX_LINE_QUANTITY;
      ReplaceIsAbsolute(items, lines, shop, k);
      MergedIsCappedTotal(lines, k);
      FindExact(r, k);
      CountLost(r, lines, shop);
      assert LineTotal(QuotedLines(AsRaw(lines), shop), shop, Count) == RowTotal(r, lines, shop, Count);
    }
  }

  /** One line put into any cart is billed at today's price of its product and variant. */
  lemma OneLineBill(items: seq<Item>, k: Key, quantity: int, shop: Shop, cfg: Config, zone: Option<Zone>, coupon: real)
    requires UniqueKeys(items) && 0 < quantity <= MAX_LINE_QUANTITY
    requires shop.Sells(k.product) && (k.variant.Some? ==> k in shop.delta)
    ensures var r := BillAfter(items, [Line(k, quantity)], shop, cfg, zone, coupon);
            var unit := shop.base[k.product] + if k.variant.Some? then shop.delta[k] else 0;
            && r.bill.subtotal == unit * quantity && r.count == quantity
            && r.bill.savings == (if shop.mrp[k.product] > unit then shop.mrp[k.product] - unit else 0) * quantity
  {
    hide UniqueKeys, QuoteFor, BillAfter;
    var lines := [Line(k, quantity)];
    var raw := RawItem(Some(k.product), Some(quantity), k.variant);
    assert lines[..0] == [];
    assert forall other :: Wanted(lines, other) <= MAX_LINE_QUANTITY;
    assert AsRaw(lines) == [] + [raw];
    QuoteAddsUp([], raw, shop, cfg, zone, coupon);
    QuoteIsTheBillIff(items, lines, shop, cfg, zone, coupon);
  }

  function TwiceSixty(): seq<Line> {
    [Line(Key(1, None), 60)] + [Line(Key(1, None), 60)]
  }

  lemma QuotedTwiceSixty(shop: Shop)
    requires shop.Sells(1)
    ensures LineTotal(QuotedLines(AsRaw(TwiceSixty()), shop), shop, Count) == 120
  {
    hide QuotedLines, LineTotal;
    var l := Line(Key(1, None), 60);
    var none: seq<Line> := [];
    QuoteReadsTheLines(TwiceSixty(), shop, Count);
    LineTotalNext(none, l, shop, Count);
    LineTotalNext([l], l, shop, Count);
    QuotedNothing(shop);
    assert none + [l] == [l];
  }

  lemma WantedTwiceSixty(shop: Shop)
    ensures WantedItems(TwiceSixty(), shop) == [Item(Key(1, None), MAX_LINE_QUANTITY, shop.Price(Key(1, None)))]
  {
    hide Shop.Price;
    var l := Line(Key(1, None), 60);
    assert TwiceSixty()[..1] == [l] && [l][..0] == [];
    assert WantedItems([l], shop) == [Item(l.key, 60, shop.Price(l.key))];
  }

  lemma CartOfOne(item: Item, lines: seq<Line>, shop: Shop)
    requires WantedItems(lines, shop) == [item] && item.quantity > 0
    ensures Replaced([], lines, shop) == [item] && ItemTotal([item], shop, Count) == item.quantity
  {
    hide WantedItems;
    var none: seq<Item> := [];
    assert [item][..0] == none && none + [item] == [item];
    assert UpsertAll(none, [item]) == Upserted(none, item);
  }

  /** Two lines of 60 of one product: 120 are quoted, and the cart holds 99. */
  lemma QuoteExceedsTheCart(shop: Shop, cfg: Config, zone: Option<Zone>, coupon: real)
    requires shop.Sells(1)
    ensures QuoteOf(TwiceSixty(), shop, cfg, zone, coupon).count == 120
    ensures BillAfter([], TwiceSixty(), shop, cfg, zone, coupon).count == 99
  {
    hide ComputeBill, QuotedLines, LineTotal, WantedItems, Replaced, ItemTotal, TwiceSixty;
    QuotedTwiceSixty(shop);
    WantedTwiceSixty(shop);
    CartOfOne(WantedItems(TwiceSixty(), shop)[0], TwiceSixty(), shop);
  }
}
