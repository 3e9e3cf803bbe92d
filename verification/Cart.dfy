/** The server cart: absolute replacement of its lines, single upserts, and capped adds. */
module Cart {
  import opened Common

  const MAX_LINE_QUANTITY: nat := 99

  datatype Key = Key(product: nat, variant: Option<nat>)

  /** Selling prices at the serving store, list prices, and variant price deltas, of active products. */
  datatype Shop = Shop(base: map<nat, int>, mrp: map<nat, int>, delta: map<Key, int>) {
    predicate Sells(product: nat) {
      product in base && product in mrp
    }

    /** The price of a line; a variant the product does not have changes nothing. */
    function Price(k: Key): int {
      (if k.product in base then base[k.product] else 0) + (if k.variant.Some? && k in delta then delta[k] else 0)
    }

    function Mrp(k: Key): int {
      if k.product in mrp then mrp[k.product] else 0
    }
  }

  datatype Item = Item(key: Key, quantity: int, price: int)

  datatype Line = Line(key: Key, quantity: int)

  function Find(items: seq<Item>, k: Key): Option<Item> {
    if items == [] then None
    else if items[|items| - 1].key == k then Some(items[|items| - 1])
    else Find(items[..|items| - 1], k)
  }

  /** Every row's key is new with respect to the rows before it. */
  predicate UniqueKeys(items: seq<Item>) {
    items == []
    || (UniqueKeys(items[..|items| - 1]) && Find(items[..|items| - 1], items[|items| - 1].key) == None)
  }

  lemma FindNext(items: seq<Item>, x: Item, k: Key)
    ensures Find(items + [x], k) == if x.key == k then Some(x) else Find(items, k)
    ensures UniqueKeys(items + [x]) <==> UniqueKeys(items) && Find(items, x.key) == None
  {
    assert (items + [x])[..|items|] == items;
  }

  lemma {:induction false} FindExact(items: seq<Item>, k: Key)
    ensures Find(items, k) == None <==> forall x | x in items :: x.key != k
    ensures Find(items, k).Some? ==> Find(items, k).value in items && Find(items, k).value.key == k
  {
    if items != [] {
      assert items == items[..|items| - 1] + [items[|items| - 1]];
      FindExact(items[..|items| - 1], k);
    }
  }

  /** Unique keys in the usual sense: no two rows share one. */
  lemma {:induction false} UniqueMeansDistinct(items: seq<Item>)
    ensures UniqueKeys(items) <==> forall i, j | 0 <= i < j < |items| :: items[i].key != items[j].key
  {
    if items != [] {
      var before, last := items[..|items| - 1], items[|items| - 1];
      UniqueMeansDistinct(before);
      FindExact(before, last.key);
      if UniqueKeys(items) {
        forall i | 0 <= i < |before|
          ensures items[i].key != last.key
        {
          assert before[i] in before;
        }
      }
    }
  }

  /* ---- Upsert ---- */

  function Dropped(items: seq<Item>, k: Key): seq<Item> {
    if items == [] then []
    else
      var last := items[|items| - 1];
      Dropped(items[..|items| - 1], k) + if last.key == k then [] else [last]
  }

  function Updated(items: seq<Item>, item: Item): (r: seq<Item>)
    ensures |r| == |items|
    ensures forall i | 0 <= i < |r| :: r[i] == if items[i].key == item.key then item else items[i]
  {
    seq(|items|, i requires 0 <= i < |items| => if items[i].key == item.key then item else items[i])
  }

  function Upserted(items: seq<Item>, item: Item): seq<Item> {
    if item.quantity <= 0 then Dropped(items, item.key)
    else if Find(items, item.key).Some? then Updated(items, item)
    else items + [item]
  }

  lemma {:induction false} DroppedExact(items: seq<Item>, k: Key, other: Key)
    ensures Find(Dropped(items, k), other) == if other == k then None else Find(items, other)
    ensures UniqueKeys(items) ==> UniqueKeys(Dropped(items, k))
  {
    if items != [] {
      hide Find, UniqueKeys;
      var before, last := items[..|items| - 1], items[|items| - 1];
      assert items == before + [last];
      DroppedExact(before, k, other);
      DroppedExact(before, k, last.key);
      FindNext(before, last, other);
      FindNext(Dropped(before, k), last, other);
      assert Dropped(before, k) + [] == Dropped(before, k);
    }
  }

  lemma {:induction false} UpdatedExact(items: seq<Item>, item: Item, other: Key)
    ensures Find(Updated(items, item), other)
         == if other == item.key && Find(items, other).Some? then Some(item) else Find(items, other)
    ensures UniqueKeys(items) ==> UniqueKeys(Updated(items, item))
  {
    if items != [] {
      hide Find, UniqueKeys;
      var before, last := items[..|items| - 1], items[|items| - 1];
      var next := if last.key == item.key then item else last;
      assert items == before + [last];
      assert Updated(items, item) == Updated(before, item) + [next];
      UpdatedExact(before, item, other);
      UpdatedExact(before, item, last.key);
      FindNext(before, last, other);
      FindNext(Updated(before, item), next, other);
    }
  }

  /** An upsert sets one key to exactly the given quantity and price, and touches no other. */
  lemma UpsertExact(items: seq<Item>, item: Item, other: Key)
    requires UniqueKeys(items)
    ensures UniqueKeys(Upserted(items, item))
    ensures Find(Upserted(items, item), other) ==
            if other != item.key then Find(items, other) else if item.quantity <= 0 then None else Some(item)
  {
    hide Find, UniqueKeys;
    DroppedExact(items, item.key, other);
    UpdatedExact(items, item, other);
    FindNext(items, item, other);
  }

  /** A line costs the product's price at the store, and the surcharge of its variant if the product has that variant. */
  lemma UpsertedRow(items: seq<Item>, k: Key, quantity: int, shop: Shop)
    requires UniqueKeys(items) && quantity > 0 && k.product in shop.base
    ensures var unit := shop.base[k.product] + if k.variant.Some? && k in shop.delta then shop.delta[k] else 0;
            Find(Upserted(items, Item(k, quantity, shop.Price(k))), k) == Some(Item(k, quantity, unit))
  {
    hide Find, UniqueKeys, Upserted;
    UpsertExact(items, Item(k, quantity, shop.Price(k)), k);
  }

  /* ---- Merging the lines of a request ---- */

  /** What the loop over the lines accumulates for one key: the first positive quantity, then capped sums. */
  function Merged(lines: seq<Line>, k: Key): int {
    if lines == [] then 0
    else
      var before, last := Merged(lines[..|lines| - 1], k), lines[|lines| - 1];
      if last.key != k || last.quantity <= 0 then before
      else if before == 0 then last.quantity
      else Min(before + last.quantity, MAX_LINE_QUANTITY)
  }

  function Wanted(lines: seq<Line>, k: Key): int {
    if lines == [] then 0
    else
      var last := lines[|lines| - 1];
      Wanted(lines[..|lines| - 1], k) + if last.key == k && last.quantity > 0 then last.quantity else 0
  }

  /** What the request serializer guarantees about a line. */
  predicate Validated(lines: seq<Line>) {
    forall l | l in lines :: 0 <= l.quantity <= MAX_LINE_QUANTITY
  }

  /** On validated lines the merge is the capped total, however the quantity was split over lines. */
  lemma {:induction false} MergedIsCappedTotal(lines: seq<Line>, k: Key)
    requires Validated(lines)
    ensures Merged(lines, k) == Min(MAX_LINE_QUANTITY, Wanted(lines, k)) && Wanted(lines, k) >= 0
  {
    if lines != [] {
      assert lines == lines[..|lines| - 1] + [lines[|lines| - 1]];
      assert lines[|lines| - 1] in lines;
      MergedIsCappedTotal(lines[..|lines| - 1], k);
    }
  }

  /** The dictionary after one more line. */
  function WantedNext(before: seq<Item>, line: Line, shop: Shop): seq<Item> {
    if line.quantity <= 0 then before
    else
      match Find(before, line.key)
      case None => before + [Item(line.key, line.quantity, shop.Price(line.key))]
      case Some(entry) => Updated(before, entry.(quantity := Min(entry.quantity + line.quantity, MAX_LINE_QUANTITY)))
  }

  /** The dictionary the loop builds, in insertion order. */
  function WantedItems(lines: seq<Line>, shop: Shop): seq<Item> {
    if lines == [] then []
    else WantedNext(WantedItems(lines[..|lines| - 1], shop), lines[|lines| - 1], shop)
  }

  lemma WantedItemsNext(lines: seq<Line>, i: nat, shop: Shop)
    requires i < |lines|
    ensures WantedItems(lines[..i + 1], shop) == WantedNext(WantedItems(lines[..i], shop), lines[i], shop)
  {
    hide Find, Updated;
    assert lines[..i + 1][..i] == lines[..i];
  }

  /** A key the merge holds is in the dictionary with that quantity, and no other key is. */
  predicate Holds(items: seq<Item>, k: Key, merged: int, shop: Shop) {
    merged >= 0 && Find(items, k) == if merged != 0 then Some(Item(k, merged, shop.Price(k))) else None
  }

  lemma MergedNext(lines: seq<Line>, k: Key)
    requires lines != []
    ensures var before, last := Merged(lines[..|lines| - 1], k), lines[|lines| - 1];
            Merged(lines, k) == if last.key != k || last.quantity <= 0 then before
                                else if before == 0 then last.quantity
                                else Min(before + last.quantity, MAX_LINE_QUANTITY)
  {
  }

  lemma WantedStep(before: seq<Item>, line: Line, shop: Shop, k: Key, merged: int, own: int)
    requires UniqueKeys(before) && Holds(before, k, merged, shop) && Holds(before, line.key, own, shop)
    ensures var now := if line.key != k || line.quantity <= 0 then merged
                       else if own == 0 then line.quantity
                       else Min(own + line.quantity, MAX_LINE_QUANTITY);
            UniqueKeys(WantedNext(before, line, shop)) && Holds(WantedNext(before, line, shop), k, now, shop)
  {
    hide UniqueKeys, Find, Updated, Shop.Price;
    if line.quantity > 0 {
      var now := if own == 0 then line.quantity else Min(own + line.quantity, MAX_LINE_QUANTITY);
      UpsertExact(before, Item(line.key, now, shop.Price(line.key)), k);
    }
  }

  lemma {:induction false} WantedItemsExact(lines: seq<Line>, shop: Shop, k: Key)
    ensures var items := WantedItems(lines, shop);
            && UniqueKeys(items)
            && Find(items, k) == (if Merged(lines, k) != 0 then Some(Item(k, Merged(lines, k), shop.Price(k))) else None)
            && Merged(lines, k) >= 0
  {
    if lines != [] {
      hide UniqueKeys, Find, WantedItems, WantedNext, Merged, Shop.Price;
      var n := |lines| - 1;
      WantedItemsExact(lines[..n], shop, k);
      WantedItemsExact(lines[..n], shop, lines[n].key);
      WantedItemsNext(lines, n, shop);
      assert lines[..n + 1] == lines;
      WantedStep(WantedItems(lines[..n], shop), lines[n], shop, k, Merged(lines[..n], k), Merged(lines[..n], lines[n].key));
      MergedNext(lines, k);
    } else {
      NoItemsUnique();
    }
  }

  lemma NothingWanted(shop: Shop)
    ensures WantedItems([], shop) == []
  {
  }

  lemma NoItemsUnique()
    ensures UniqueKeys([])
  {
  }

  /* ---- Replacing the cart ---- */

  function KeptOf(items: seq<Item>, wanted: seq<Item>): seq<Item> {
    if items == [] then []
    else
      var last := items[|items| - 1];
      KeptOf(items[..|items| - 1], wanted) + if Find(wanted, last.key).Some? then [last] else []
  }

  function UpsertAll(items: seq<Item>, wanted: seq<Item>): seq<Item> {
    if wanted == [] then items
    else Upserted(UpsertAll(items, wanted[..|wanted| - 1]), wanted[|wanted| - 1])
  }

  /** Delete what is not wanted, then upsert everything wanted. */
  function Replaced(items: seq<Item>, lines: seq<Line>, shop: Shop): seq<Item> {
    var wanted := WantedItems(lines, shop);
    UpsertAll(KeptOf(items, wanted), wanted)
  }

  lemma {:induction false} KeptExact(items: seq<Item>, wanted: seq<Item>, k: Key)
    ensures Find(KeptOf(items, wanted), k) == if Find(wanted, k).Some? then Find(items, k) else None
    ensures UniqueKeys(items) ==> UniqueKeys(KeptOf(items, wanted))
  {
    if items != [] {
      hide Find, UniqueKeys;
      var before, last := items[..|items| - 1], items[|items| - 1];
      assert items == before + [last];
      KeptExact(before, wanted, k);
      KeptExact(before, wanted, last.key);
      FindNext(before, last, k);
      FindNext(KeptOf(before, wanted), last, k);
      assert KeptOf(before, wanted) + [] == KeptOf(before, wanted);
    } else {
      assert Find(items, k) == None;
    }
  }

  lemma {:induction false} UpsertAllExact(items: seq<Item>, wanted: seq<Item>, k: Key)
    requires UniqueKeys(items) && forall w | w in wanted :: w.quantity > 0
    ensures UniqueKeys(UpsertAll(items, wanted))
    ensures Find(UpsertAll(items, wanted), k) == if Find(wanted, k).Some? then Find(wanted, k) else Find(items, k)
  {
    hide UniqueKeys, Upserted;
    if wanted != [] {
      var before, last := wanted[..|wanted| - 1], wanted[|wanted| - 1];
      assert wanted == before + [last];
      assert last in wanted;
      UpsertAllExact(items, before, k);
      UpsertExact(UpsertAll(items, before), last, k);
    }
  }

  /**
   The cart becomes exactly the merged lines: a key is in it, once, just when its merge is not
   zero, with that quantity and today's price. Nothing depends on what was in the cart before.
   */
  lemma ReplaceIsAbsolute(items: seq<Item>, lines: seq<Line>, shop: Shop, k: Key)
    requires UniqueKeys(items)
    ensures var r := Replaced(items, lines, shop);
            UniqueKeys(r)
            && Find(r, k) == if Merged(lines, k) != 0 then Some(Item(k, Merged(lines, k), shop.Price(k))) else None
  {
    hide UniqueKeys;
    var wanted := WantedItems(lines, shop);
    WantedItemsExact(lines, shop, k);
    KeptExact(items, wanted, k);
    WantedPositive(lines, shop);
    UpsertAllExact(KeptOf(items, wanted), wanted, k);
  }

  lemma WantedPositive(lines: seq<Line>, shop: Shop)
    ensures forall w | w in WantedItems(lines, shop) :: w.quantity > 0
  {
    hide UniqueKeys, WantedItems, Merged;
    forall w | w in WantedItems(lines, shop)
      ensures w.quantity > 0
    {
      WantedItemsExact(lines, shop, w.key);
      FindMember(WantedItems(lines, shop), w);
    }
  }

  /** The rows of a replaced cart cost what the shop asks today, whatever they cost before. */
  lemma ReplacedRowPrice(items: seq<Item>, lines: seq<Line>, shop: Shop, k: Key)
    requires UniqueKeys(items) && k.product in shop.base
    ensures var row := Find(Replaced(items, lines, shop), k);
            row.Some? ==> row.value.price == shop.base[k.product] + if k.variant.Some? && k in shop.delta then shop.delta[k] else 0
  {
    hide UniqueKeys, Replaced;
    ReplaceIsAbsolute(items, lines, shop, k);
  }

  lemma FindMember(items: seq<Item>, x: Item)
    requires UniqueKeys(items) && x in items
    ensures Find(items, x.key) == Some(x)
  {
    UniqueMeansDistinct(items);
    FindExact(items, x.key);
    var i :| 0 <= i < |items| && items[i] == x;
    var j :| 0 <= j < |items| && items[j] == Find(items, x.key).value;
    assert i == j;
  }

  /** Replaying the same request changes nothing, and every line is within the cap. */
  lemma ReplaceIsIdempotent(items: seq<Item>, lines: seq<Line>, shop: Shop, k: Key)
    requires UniqueKeys(items) && Validated(lines)
    ensures var once := Replaced(items, lines, shop);
            Find(Replaced(once, lines, shop), k) == Find(once, k)
            && (Find(once, k).Some? ==> 1 <= Find(once, k).value.quantity <= MAX_LINE_QUANTITY)
            && (Find(once, k).Some? <==> Wanted(lines, k) > 0)
  {
    hide UniqueKeys, Replaced;
    ReplaceIsAbsolute(items, lines, shop, k);
    ReplaceIsAbsolute(Replaced(items, lines, shop), lines, shop, k);
    MergedIsCappedTotal(lines, k);
  }

  lemma {:induction false} WantedWithout(lines: seq<Line>, i: nat, k: Key)
    requires i < |lines|
    ensures Wanted(lines, k) == Wanted(lines[..i] + lines[i + 1..], k)
                                + if lines[i].key == k && lines[i].quantity > 0 then lines[i].quantity else 0
  {
    var rest := lines[..i] + lines[i + 1..];
    if i == |lines| - 1 {
      assert rest == lines[..|lines| - 1];
    } else {
      assert rest[..|rest| - 1] == lines[..|lines| - 1][..i] + lines[..|lines| - 1][i + 1..];
      WantedWithout(lines[..|lines| - 1], i, k);
    }
  }

  lemma RestOf(a: seq<Line>, i: nat)
    requires i < |a|
    ensures multiset(a[..i] + a[i + 1..]) == multiset(a) - multiset{a[i]}
  {
    assert a == a[..i] + [a[i]] + a[i + 1..];
  }

  /** The order of the lines does not matter. */
  lemma {:induction false} WantedIgnoresOrder(a: seq<Line>, b: seq<Line>, k: Key)
    requires multiset(a) == multiset(b)
    ensures Wanted(a, k) == Wanted(b, k)
    decreases |a|
  {
    if a == [] {
      assert |multiset(b)| == 0;
    } else {
      hide Wanted;
      var last, before := a[|a| - 1], a[..|a| - 1];
      assert last in multiset(a);
      var i :| 0 <= i < |b| && b[i] == last;
      RestOf(a, |a| - 1);
      RestOf(b, i);
      assert a[..|a| - 1] + a[|a| - 1 + 1..] == before;
      WantedWithout(a, |a| - 1, k);
      WantedIgnoresOrder(before, b[..i] + b[i + 1..], k);
      WantedWithout(b, i, k);
    }
  }

  /** Two requests with the same lines in any order leave the same cart, whatever was in either cart. */
  lemma ReplaceIgnoresOrder(items: seq<Item>, others: seq<Item>, a: seq<Line>, b: seq<Line>, shop: Shop, k: Key)
    requires UniqueKeys(items) && UniqueKeys(others)
    requires Validated(a) && Validated(b) && multiset(a) == multiset(b)
    ensures Find(Replaced(items, a, shop), k) == Find(Replaced(others, b, shop), k)
  {
    hide UniqueKeys, Replaced, Validated;
    ReplaceIsAbsolute(items, a, shop, k);
    ReplaceIsAbsolute(others, b, shop, k);
    MergedIsCappedTotal(a, k);
    MergedIsCappedTotal(b, k);
    WantedIgnoresOrder(a, b, k);
  }

  predicate AsksForSomething(lines: seq<Line>) {
    exists l :: l in lines && l.quantity > 0
  }

  lemma {:induction false} WantedWhenAsked(lines: seq<Line>, shop: Shop)
    ensures WantedItems(lines, shop) != [] <==> AsksForSomething(lines)
  {
    if lines != [] {
      var before, last := lines[..|lines| - 1], lines[|lines| - 1];
      assert lines == before + [last];
      WantedWhenAsked(before, shop);
      FindExact(WantedItems(before, shop), last.key);
      if last.quantity > 0 {
        assert last in lines;
      }
    }
  }

  class CartRow {
    var items: seq<Item>
    var store: Option<nat>

    constructor ()
      ensures items == [] && store == None
    {
      items, store := [], None;
    }

    /** Set one line, or remove it; setting binds the cart to the serving store, if carts are bound to stores at all. */
    method UpsertItem(k: Key, quantity: int, shop: Shop, serving: Option<nat>)
      modifies this
      ensures items == Upserted(old(items), Item(k, quantity, shop.Price(k)))
      ensures store == if quantity > 0 && serving.Some? then serving else old(store)
    {
      if quantity <= 0 {
        items := Dropped(items, k);
        return;
      }
      if serving.Some? && store != serving {
        store := serving;
      }
      var item := Item(k, quantity, shop.Price(k));
      if Find(items, k).Some? {
        items := Updated(items, item);
      } else {
        items := items + [item];
      }
    }

    /** Merge the lines by key, in the order keys first appear. */
    method MergeLines(lines: seq<Line>, shop: Shop) returns (wanted: seq<Item>)
      ensures wanted == WantedItems(lines, shop)
    {
      hide WantedItems, Find, Updated;
      wanted := [];
      NothingWanted(shop);
      for i := 0 to |lines|
        invariant wanted == WantedItems(lines[..i], shop)
      {
        WantedItemsNext(lines, i, shop);
        var quantity := lines[i].quantity;
        if quantity <= 0 {
          continue;
        }
        var entry := Find(wanted, lines[i].key);
        if entry == None {
          wanted := wanted + [Item(lines[i].key, quantity, shop.Price(lines[i].key))];
        } else {
          wanted := Updated(wanted, entry.value.(quantity := Min(entry.value.quantity + quantity, MAX_LINE_QUANTITY)));
        }
      }
      assert lines[..|lines|] == lines;
    }

    /** Make the cart exactly these lines. */
    method ReplaceItems(lines: seq<Line>, shop: Shop, serving: Option<nat>)
      modifies this
      ensures items == Replaced(old(items), lines, shop)
      ensures store == if serving.Some? && exists l :: l in lines && l.quantity > 0 then serving else old(store)
    {
      hide WantedItems, KeptOf, Upserted, Shop.Price;
      var wanted := MergeLines(lines, shop);
      WantedPriced(lines, shop);
      WantedPositive(lines, shop);
      WantedWhenAsked(lines, shop);
      items := KeptOf(items, wanted);
      for i := 0 to |wanted|
        invariant items == UpsertAll(KeptOf(old(items), wanted), wanted[..i])
        invariant store == if i > 0 && serving.Some? then serving else old(store)
      {
        assert wanted[..i + 1][..i] == wanted[..i];
        assert wanted[i] in wanted;
        UpsertItem(wanted[i].key, wanted[i].quantity, shop, serving);
      }
      assert wanted[..|wanted|] == wanted;
    }

    /** POST /cart/items: add to what is there (zero means one), up to the cap. */
    method AddItem(k: Key, quantity: nat, shop: Shop, serving: Option<nat>)
      modifies this
      ensures items == AddStep(old(items), Line(k, quantity), shop)
      ensures (forall x | x in old(items) :: x.quantity >= 0) ==> store == if serving.Some? then serving else old(store)
    {
      FindExact(items, k);
      var existing := Find(items, k);
      var baseQuantity := if existing.Some? then existing.value.quantity else 0;
      var newQuantity := Min(baseQuantity + (if quantity == 0 then 1 else quantity), MAX_LINE_QUANTITY);
      UpsertItem(k, newQuantity, shop, serving);
    }
  }

  lemma {:induction false} WantedPriced(lines: seq<Line>, shop: Shop)
    ensures forall w | w in WantedItems(lines, shop) :: w.price == shop.Price(w.key)
  {
    if lines != [] {
      var before, last := WantedItems(lines[..|lines| - 1], shop), lines[|lines| - 1];
      WantedPriced(lines[..|lines| - 1], shop);
      FindExact(before, last.key);
    }
  }

  /* ---- Repeated adds ---- */

  function QuantityOf(items: seq<Item>, k: Key): int {
    if Find(items, k).Some? then Find(items, k).value.quantity else 0
  }

  /** What one add does to the cart. */
  function AddStep(items: seq<Item>, add: Line, shop: Shop): seq<Item> {
    var now := Min(QuantityOf(items, add.key) + (if add.quantity == 0 then 1 else add.quantity), MAX_LINE_QUANTITY);
    Upserted(items, Item(add.key, now, shop.Price(add.key)))
  }

  function Added(items: seq<Item>, adds: seq<Line>, shop: Shop): seq<Item> {
    if adds == [] then items
    else AddStep(Added(items, adds[..|adds| - 1], shop), adds[|adds| - 1], shop)
  }

  function AddTotal(adds: seq<Line>, k: Key): int {
    if adds == [] then 0
    else
      var last := adds[|adds| - 1];
      AddTotal(adds[..|adds| - 1], k)
      + if last.key == k then (if last.quantity == 0 then 1 else last.quantity) else 0
  }

  /** Any number of adds to any cart leaves, for each key added, the capped total of what was there and what was added. */
  lemma {:induction false} AddsAreCapped(items: seq<Item>, adds: seq<Line>, shop: Shop, k: Key)
    requires UniqueKeys(items) && (forall x | x in items :: x.quantity >= 0) && Validated(adds)
    ensures var r := Added(items, adds, shop);
            && UniqueKeys(r) && AddTotal(adds, k) >= 0
            && Find(r, k) == (if AddTotal(adds, k) == 0 then Find(items, k)
                              else Some(Item(k, Min(QuantityOf(items, k) + AddTotal(adds, k), MAX_LINE_QUANTITY), shop.Price(k))))
  {
    hide UniqueKeys, AddStep;
    if adds != [] {
      var before, last := adds[..|adds| - 1], adds[|adds| - 1];
      assert adds == before + [last];
      assert last in adds;
      AddsAreCapped(items, before, shop, k);
      AddsAreCapped(items, before, shop, last.key);
      FindExact(items, last.key);
      AddStepExact(Added(items, before, shop), last, shop, k);
    }
  }

  lemma AddStepExact(items: seq<Item>, add: Line, shop: Shop, k: Key)
    requires UniqueKeys(items) && 0 <= add.quantity && QuantityOf(items, add.key) >= 0
    ensures var r := AddStep(items, add, shop);
            var now := QuantityOf(items, add.key) + if add.quantity == 0 then 1 else add.quantity;
            UniqueKeys(r)
            && Find(r, k) == if k != add.key then Find(items, k) else Some(Item(k, Min(now, MAX_LINE_QUANTITY), shop.Price(k)))
  {
    hide UniqueKeys, Upserted, Find;
    var now := Min(QuantityOf(items, add.key) + (if add.quantity == 0 then 1 else add.quantity), MAX_LINE_QUANTITY);
    UpsertExact(items, Item(add.key, now, shop.Price(add.key)), k);
  }
}
