/** Deleting a category and everything under it, after moving the products out of the way. */
module CategoryDelete {
  import opened Common
  import opened CategoryTree

  datatype Product = Product(id: nat, category: Id)

  /** Foreign keys hold: every parent and every product's category is a row. */
  predicate ParentsExist(rows: Table) {
    forall r | r in rows && r.parent.Some? :: HasRow(rows, r.parent.value)
  }

  predicate ProductsFiled(rows: Table, products: seq<Product>) {
    forall p | p in products :: HasRow(rows, p.category)
  }

  function Without(rows: Table, ids: seq<Id>): (r: Table)
    ensures forall c :: c in r <==> c in rows && c.id !in ids
  {
    if rows == [] then []
    else
      var last := rows[|rows| - 1];
      assert rows == rows[..|rows| - 1] + [last];
      Without(rows[..|rows| - 1], ids) + if last.id in ids then [] else [last]
  }

  function Moved(products: seq<Product>, ids: seq<Id>, to: Id): (r: seq<Product>)
    ensures |r| == |products|
    ensures forall i | 0 <= i < |r| ::
      r[i] == if products[i].category in ids then products[i].(category := to) else products[i]
  {
    seq(|products|, i requires 0 <= i < |products| =>
      if products[i].category in ids then products[i].(category := to) else products[i])
  }

  function CountIn(products: seq<Product>, ids: seq<Id>): nat {
    if products == [] then 0
    else CountIn(products[..|products| - 1], ids) + if products[|products| - 1].category in ids then 1 else 0
  }

  lemma {:induction false} CountInZero(products: seq<Product>, ids: seq<Id>)
    ensures CountIn(products, ids) == 0 <==> forall p | p in products :: p.category !in ids
  {
    if products != [] {
      assert products == products[..|products| - 1] + [products[|products| - 1]];
      CountInZero(products[..|products| - 1], ids);
    }
  }

  lemma {:induction false} CountInIsSize(products: seq<Product>, ids: seq<Id>)
    ensures CountIn(products, ids) == |set i | 0 <= i < |products| && products[i].category in ids|
  {
    if products != [] {
      var n := |products| - 1;
      var before := products[..n];
      CountInIsSize(before, ids);
      var hits := set i | 0 <= i < n && before[i].category in ids;
      assert forall i | 0 <= i < n :: products[i] == before[i];
      if products[n].category in ids {
        assert (set i | 0 <= i < n + 1 && products[i].category in ids) == hits + {n};
      } else {
        assert (set i | 0 <= i < n + 1 && products[i].category in ids) == hits;
      }
    }
  }

  lemma {:induction false} WithoutKeepsUnique(rows: Table, ids: seq<Id>)
    requires UniqueIds(rows)
    ensures UniqueIds(Without(rows, ids))
  {
    if rows != [] {
      var before, last := rows[..|rows| - 1], rows[|rows| - 1];
      WithoutKeepsUnique(before, ids);
      var kept := Without(before, ids);
      forall i | 0 <= i < |kept|
        ensures kept[i].id != last.id
      {
        assert kept[i] in kept && kept[i] in before;
      }
    }
  }

  lemma {:induction false} ParentOfRow(rows: Table, r: Category)
    requires UniqueIds(rows) && r in rows
    ensures ParentOf(rows, r.id) == r.parent
  {
    var before, last := rows[..|rows| - 1], rows[|rows| - 1];
    assert rows == before + [last];
    if r != last {
      assert r in before;
      ParentOfRow(before, r);
    }
  }

  lemma ParentUnder(rows: Table, x: Id, p: Id, a: Id)
    requires ParentOf(rows, x) == Some(p) && IsUnder(rows, p, a)
    ensures IsUnder(rows, x, a)
  {
    var n: nat :| Ancestor(rows, p, n) == Some(a);
    assert Ancestor(rows, x, 0) == Some(x);
    assert Ancestor(rows, x, 1) == Some(p);
    AncestorAdds(rows, x, 1, n);
  }

  /** A row left behind does not hang under a deleted one. */
  lemma SurvivorsKeepParents(rows: Table, a: Id, ids: seq<Id>)
    requires UniqueIds(rows) && ParentsExist(rows)
    requires forall x :: x in ids <==> IsUnder(rows, x, a)
    ensures ParentsExist(Without(rows, ids))
  {
    hide IsUnder;
    var kept := Without(rows, ids);
    forall r | r in kept && r.parent.Some?
      ensures HasRow(kept, r.parent.value)
    {
      var p := r.parent.value;
      ParentOfRow(rows, r);
      if p in ids {
        ParentUnder(rows, r.id, p, a);
      }
      var q :| q in rows && q.id == p;
      assert q in kept;
    }
  }

  datatype Outcome =
    | IsFallback
    | Protected
    | Deleted(descendants: nat, productsMoved: nat)

  /** The tables involved; `fallback` is the row whose slug is "uncategorized", once it exists. */
  datatype Shelf = Shelf(rows: Table, products: seq<Product>, fallback: Option<Id>)

  predicate Sound(s: Shelf) {
    && UniqueIds(s.rows) && ParentsExist(s.rows) && ProductsFiled(s.rows, s.products)
    && (s.fallback.Some? ==> HasRow(s.rows, s.fallback.value))
  }

  /** Fetch the fallback category, creating it as a root on first use. */
  function WithFallback(s: Shelf, freshId: Id): Shelf {
    if s.fallback.Some? then s else s.(rows := s.rows + [Category(freshId, None)], fallback := Some(freshId))
  }

  function Emptied(s: Shelf, ids: seq<Id>, freshId: Id): Shelf {
    if CountIn(s.products, ids) == 0 then s
    else
      var t := WithFallback(s, freshId);
      t.(products := Moved(s.products, ids, t.fallback.value))
  }

  /** What deleting a with subtree ids does. */
  function Destroying(s: Shelf, a: Id, ids: seq<Id>, freshId: Id): (Shelf, Outcome)
    requires ids != []
  {
    if s.fallback == Some(a) then (s, IsFallback)
    else
      var t := Emptied(s, ids, freshId);
      // The database refuses to delete a category that still holds a product.
      if CountIn(t.products, ids) > 0 then (t, Protected)
      else (t.(rows := Without(t.rows, ids), fallback := Surviving(t.fallback, ids)), Deleted(|ids| - 1, CountIn(s.products, ids)))
  }

  /** The fallback, unless its own row was among the deleted ones: then the next use makes a new one. */
  function Surviving(fallback: Option<Id>, ids: seq<Id>): Option<Id> {
    if fallback.Some? && fallback.value in ids then None else fallback
  }

  class Catalog {
    var rows: Table
    var products: seq<Product>
    var fallback: Option<Id>

    constructor (rows: Table, products: seq<Product>, fallback: Option<Id>)
      ensures Tables() == Shelf(rows, products, fallback)
    {
      this.rows, this.products, this.fallback := rows, products, fallback;
    }

    function Tables(): Shelf
      reads this
    {
      Shelf(rows, products, fallback)
    }

    method GetUncategorized(freshId: Id) returns (id: Id)
      modifies this`rows, this`fallback
      ensures Tables() == WithFallback(old(Tables()), freshId) && fallback == Some(id)
    {
      if fallback == None {
        rows := rows + [Category(freshId, None)];
        fallback := Some(freshId);
      }
      return fallback.value;
    }

    /** Delete a category and its whole subtree; its products move to the fallback first. */
    method Destroy(a: Id, freshId: Id) returns (outcome: Outcome, ghost ids: seq<Id>)
      requires UniqueIds(rows) && HasRow(rows, a)
      requires !OnCycle(rows, a)
      modifies this
      ensures ids != [] && Distinct(ids) && forall x :: x in ids <==> IsUnder(old(rows), x, a)
      ensures (Tables(), outcome) == Destroying(old(Tables()), a, ids, freshId)
    {
      hide IsUnder, OnCycle, CountIn, Moved, Without;
      var subtree := SubtreeIds(rows, a);
      ids := subtree;
      assert a in ids by {
        SelfUnder(rows, a);
      }
      if fallback == Some(a) {
        return IsFallback, ids;
      }
      var moved := CountIn(products, subtree);
      if moved > 0 {
        var to := GetUncategorized(freshId);
        products := Moved(products, subtree, to);
      }
      var stuck := CountIn(products, subtree);
      if stuck > 0 {
        return Protected, ids;
      }
      rows := Without(rows, subtree);
      if fallback.Some? && fallback.value in subtree {
        fallback := None;
      }
      return Deleted(|subtree| - 1, moved), ids;
    }
  }

  lemma SelfUnder(rows: Table, a: Id)
    ensures IsUnder(rows, a, a)
  {
    assert Ancestor(rows, a, 0) == Some(a);
  }

  ghost predicate IsSubtree(rows: Table, a: Id, ids: seq<Id>) {
    ids != [] && (forall x :: x in ids <==> IsUnder(rows, x, a)) && forall x | x in ids :: HasRow(rows, x)
  }

  lemma EmptiedIsSound(s: Shelf, ids: seq<Id>, freshId: Id)
    requires Sound(s) && !HasRow(s.rows, freshId)
    ensures var t := Emptied(s, ids, freshId);
            Sound(t) && (t.rows == s.rows || t.rows == s.rows + [Category(freshId, None)])
  {
    var t := Emptied(s, ids, freshId);
    if t.rows != s.rows {
      forall i | 0 <= i < |s.rows|
        ensures s.rows[i] in s.rows
      {
      }
      assert t.rows[|s.rows|] in t.rows;
    }
    assert forall r | r in s.rows :: r in t.rows;
    forall p | p in t.products
      ensures HasRow(t.rows, p.category)
    {
      var i :| 0 <= i < |t.products| && t.products[i] == p;
      assert s.products[i] in s.products;
    }
  }

  /** The move succeeds in emptying the subtree unless the fallback itself is inside it. */
  lemma StuckIff(s: Shelf, ids: seq<Id>, freshId: Id)
    ensures var t := Emptied(s, ids, freshId);
            CountIn(t.products, ids) > 0 <==> CountIn(s.products, ids) > 0 && t.fallback.Some? && t.fallback.value in ids
  {
    var t := Emptied(s, ids, freshId);
    CountInZero(s.products, ids);
    CountInZero(t.products, ids);
    if CountIn(s.products, ids) > 0 {
      var p :| p in s.products && p.category in ids;
      var i :| 0 <= i < |s.products| && s.products[i] == p;
      assert t.products[i] in t.products && t.products[i].category == t.fallback.value;
      forall q | q in t.products && t.fallback.value !in ids
        ensures q.category !in ids
      {
        var j :| 0 <= j < |t.products| && t.products[j] == q;
      }
    }
  }

  lemma DeletedIsSound(s: Shelf, t: Shelf, a: Id, ids: seq<Id>, freshId: Id)
    requires Sound(s) && Sound(t) && IsSubtree(s.rows, a, ids)
    requires t.rows == s.rows || t.rows == s.rows + [Category(freshId, None)]
    requires CountIn(t.products, ids) == 0
    ensures var kept := Without(t.rows, ids);
            Sound(t.(rows := kept, fallback := Surviving(t.fallback, ids)))
  {
    hide IsUnder;
    var kept := Without(t.rows, ids);
    WithoutKeepsUnique(t.rows, ids);
    SurvivorsKeepParents(s.rows, a, ids);
    CountInZero(t.products, ids);
    forall r | r in kept && r.parent.Some?
      ensures HasRow(kept, r.parent.value)
    {
      assert r in Without(s.rows, ids);
      var q :| q in Without(s.rows, ids) && q.id == r.parent.value;
      assert q in kept;
    }
    forall p | p in t.products
      ensures HasRow(kept, p.category)
    {
      var q :| q in t.rows && q.id == p.category;
      assert q in kept;
    }
  }

  /**
   No product is lost and none loses its category: products of the subtree move to the fallback,
   all others stay, and whatever remains still refers to rows that exist. The one case in which
   nothing is deleted after the move is a fallback that lies inside the subtree.
   */
  lemma NoProductIsLost(s: Shelf, a: Id, ids: seq<Id>, freshId: Id)
    requires Sound(s) && IsSubtree(s.rows, a, ids) && !HasRow(s.rows, freshId)
    ensures var (t, outcome) := Destroying(s, a, ids, freshId);
            && Sound(t) && |t.products| == |s.products|
            && (outcome == IsFallback <==> s.fallback == Some(a)) && (outcome == IsFallback ==> t == s)
            && (outcome != IsFallback ==>
                  forall i | 0 <= i < |s.products| ::
                    if s.products[i].category in ids
                    then t.fallback.Some? && t.products[i] == s.products[i].(category := t.fallback.value)
                    else t.products[i] == s.products[i])
            && (outcome.Deleted? ==> forall c | c in s.rows :: c in t.rows <==> c.id !in ids)
            && (outcome.Deleted? ==> outcome.descendants == |ids| - 1
                                     && outcome.productsMoved == |set i | 0 <= i < |s.products| && s.products[i].category in ids|)
            && (outcome == Protected <==>
                  && s.fallback.Some? && s.fallback != Some(a) && s.fallback.value in ids
                  && exists p :: p in s.products && p.category in ids)
  {
    hide IsUnder;
    EmptiedIsSound(s, ids, freshId);
    StuckIff(s, ids, freshId);
    CountInZero(s.products, ids);
    CountInIsSize(s.products, ids);
    var t := Emptied(s, ids, freshId);
    if CountIn(t.products, ids) == 0 {
      DeletedIsSound(s, t, a, ids, freshId);
    }
  }

  /* ---- Any number of deletions ---- */

  /** One request to delete some category, whatever its outcome, with an id not yet in use for a new fallback. */
  ghost predicate Deletes(s: Shelf, t: Shelf) {
    exists a: Id, ids: seq<Id>, freshId: Id ::
      IsSubtree(s.rows, a, ids) && !HasRow(s.rows, freshId) && t == Destroying(s, a, ids, freshId).0
  }

  ghost predicate IsHistory(shelves: seq<Shelf>) {
    shelves != [] && forall i | 0 < i < |shelves| :: Deletes(shelves[i - 1], shelves[i])
  }

  /** The same products in the same order, wherever they are filed. */
  predicate SameProducts(s: Shelf, t: Shelf) {
    |s.products| == |t.products| && forall i | 0 <= i < |s.products| :: s.products[i].id == t.products[i].id
  }

  lemma DeleteKeepsProducts(s: Shelf, t: Shelf)
    requires Sound(s) && Deletes(s, t)
    ensures Sound(t) && SameProducts(s, t)
  {
    hide Sound;
    var a: Id, ids: seq<Id>, freshId: Id :|
      IsSubtree(s.rows, a, ids) && !HasRow(s.rows, freshId) && t == Destroying(s, a, ids, freshId).0;
    NoProductIsLost(s, a, ids, freshId);
  }

  /** After any run of deletions every product still exists, and is filed under a category that exists. */
  lemma {:induction false} NoProductIsEverLost(shelves: seq<Shelf>)
    requires IsHistory(shelves) && Sound(shelves[0])
    ensures var s, t := shelves[0], shelves[|shelves| - 1]; Sound(t) && SameProducts(s, t)
  {
    if |shelves| > 1 {
      hide Sound, Deletes;
      var before := shelves[..|shelves| - 1];
      forall i | 0 < i < |before|
        ensures Deletes(before[i - 1], before[i])
      {
        assert before[i - 1] == shelves[i - 1] && before[i] == shelves[i];
      }
      NoProductIsEverLost(before);
      DeleteKeepsProducts(shelves[|shelves| - 2], shelves[|shelves| - 1]);
    }
  }

  /** The fallback, 2, was moved under 1, which holds a product: the product moves and 1 stays. */
  lemma StuckOnItsFallback()
    ensures var s := Shelf([Category(1, None), Category(2, Some(1))], [Product(9, 1)], Some(2));
            Destroying(s, 1, [1, 2], 3) == (s.(products := [Product(9, 2)]), Protected)
            && IsSubtree(s.rows, 1, [1, 2])
  {
    var rows := [Category(1, None), Category(2, Some(1))];
    var s := Shelf(rows, [Product(9, 1)], Some(2));
    assert [Product(9, 1)][..0] == [];
    assert Moved(s.products, [1, 2], 2) == [Product(9, 2)];
    forall x
      ensures x in [1, 2] <==> IsUnder(rows, x, 1)
    {
      FamilyOfTwo(rows, x);
    }
    assert rows[0] in rows && rows[1] in rows;
  }

  lemma FamilyOfTwo(rows: Table, x: Id)
    requires rows == [Category(1, None), Category(2, Some(1))]
    ensures x in [1, 2] <==> IsUnder(rows, x, 1)
  {
    assert rows[..1] == [Category(1, None)];
    assert ParentOf(rows[..1], x) == None;
    assert ParentOf(rows, x) == if x == 2 then Some(1) else None;
    assert Ancestor(rows, x, 0) == Some(x);
    assert Ancestor(rows, x, 1) == ParentOf(rows, x);
    forall n: nat | Ancestor(rows, x, n) == Some(1)
      ensures x in [1, 2]
    {
      if n > 0 {
        AncestorAdds(rows, x, 1, n - 1);
      }
    }
  }
}
