/** Product counts and stand-in pictures per category. */
module CategoryCounts {
  import opened Common
  import opened CategoryTree

  /** How many products' upward walks pass through a category: each product once per category at most. */
  function CountUnder(rows: Table, products: seq<Id>, a: Id): nat {
    if products == [] then 0
    else CountUnder(rows, products[..|products| - 1], a)
         + if a in Chain(rows, products[|products| - 1]) then 1 else 0
  }

  function CountDirect(products: seq<Id>, c: Id): nat {
    if products == [] then 0
    else CountDirect(products[..|products| - 1], c) + if products[|products| - 1] == c then 1 else 0
  }

  /** The same count, over the products whose category has been processed. */
  function CountAmong(rows: Table, products: seq<Id>, done: set<Id>, a: Id): nat {
    if products == [] then 0
    else CountAmong(rows, products[..|products| - 1], done, a)
         + if products[|products| - 1] in done && a in Chain(rows, products[|products| - 1]) then 1 else 0
  }

  lemma {:induction false} AmongOneMore(rows: Table, products: seq<Id>, done: set<Id>, c: Id, a: Id)
    requires c !in done
    ensures CountAmong(rows, products, done + {c}, a)
         == CountAmong(rows, products, done, a) + if a in Chain(rows, c) then CountDirect(products, c) else 0
  {
    hide Chain;
    if products != [] {
      AmongOneMore(rows, products[..|products| - 1], done, c, a);
    }
  }

  lemma {:induction false} AmongAll(rows: Table, products: seq<Id>, done: set<Id>, a: Id)
    requires forall c | c in products :: c in done
    ensures CountAmong(rows, products, done, a) == CountUnder(rows, products, a)
  {
    hide Chain;
    if products != [] {
      assert products == products[..|products| - 1] + [products[|products| - 1]];
      AmongAll(rows, products[..|products| - 1], done, a);
    }
  }

  lemma {:induction false} AmongNone(rows: Table, products: seq<Id>, a: Id)
    ensures CountAmong(rows, products, {}, a) == 0
  {
    if products != [] {
      AmongNone(rows, products[..|products| - 1], a);
    }
  }

  lemma {:induction false} CountDirectPositive(products: seq<Id>, c: Id)
    ensures CountDirect(products, c) > 0 <==> c in products
  {
    if products != [] {
      assert products == products[..|products| - 1] + [products[|products| - 1]];
      CountDirectPositive(products[..|products| - 1], c);
    }
  }

  lemma {:induction false} CountPositiveIff(rows: Table, products: seq<Id>, a: Id)
    ensures CountUnder(rows, products, a) > 0 <==> exists c :: c in products && a in Chain(rows, c)
  {
    hide Chain;
    if products != [] {
      var last := products[|products| - 1];
      assert products == products[..|products| - 1] + [last];
      assert last in products;
      CountPositiveIff(rows, products[..|products| - 1], a);
    }
  }

  function Get(m: map<Id, nat>, k: Id): nat {
    if k in m then m[k] else 0
  }

  /** The upward walk itself. */
  method AncestorChain(rows: Table, x: Id) returns (chain: seq<Id>)
    ensures chain == Chain(rows, x)
  {
    chain := [];
    var node := Some(x);
    while node != None && node.value !in chain && |chain| < MAX_DEPTH
      invariant |chain| <= MAX_DEPTH
      invariant Chain(rows, x) == ChainFrom(rows, node, chain)
      decreases MAX_DEPTH - |chain|
    {
      chain := chain + [node.value];
      node := ParentOf(rows, node.value);
    }
  }

  method DirectCounts(products: seq<Id>) returns (direct: map<Id, nat>)
    ensures forall c: Id :: Get(direct, c) == CountDirect(products, c)
    ensures forall c: Id :: c in direct <==> c in products
  {
    direct := map[];
    for i := 0 to |products|
      invariant forall c: Id :: Get(direct, c) == CountDirect(products[..i], c)
      invariant forall c: Id :: c in direct <==> c in products[..i]
    {
      assert products[..i + 1] == products[..i] + [products[i]];
      direct := direct[products[i] := Get(direct, products[i]) + 1];
    }
    assert products[..|products|] == products;
  }

  /** Add n to every node of one chain; the chain has no repetition. */
  method AddAlong(chain: seq<Id>, n: nat, visible: set<Id>, counts: map<Id, nat>) returns (v: set<Id>, m: map<Id, nat>)
    requires Distinct(chain)
    ensures forall a: Id :: a in v <==> a in visible || a in chain
    ensures forall a: Id :: a in m <==> a in counts || a in chain
    ensures forall a: Id :: Get(m, a) == Get(counts, a) + if a in chain then n else 0
  {
    v, m := visible, counts;
    for i := 0 to |chain|
      invariant forall a: Id :: a in v <==> a in visible || a in chain[..i]
      invariant forall a: Id :: a in m <==> a in counts || a in chain[..i]
      invariant forall a: Id :: Get(m, a) == Get(counts, a) + if a in chain[..i] then n else 0
    {
      assert chain[..i + 1] == chain[..i] + [chain[i]];
      assert chain[i] !in chain[..i];
      v := v + {chain[i]};
      m := m[chain[i] := Get(m, chain[i]) + n];
    }
    assert chain[..|chain|] == chain;
  }

  predicate Positive(visible: set<Id>, counts: map<Id, nat>) {
    counts.Keys == visible && (forall a | a in counts :: counts[a] > 0)
  }

  ghost predicate CountsAmong(rows: Table, products: seq<Id>, done: set<Id>, counts: map<Id, nat>) {
    forall a: Id :: Get(counts, a) == CountAmong(rows, products, done, a)
  }

  /** One category's products, added to every category on its upward walk. */
  method AddCategory(rows: Table, products: seq<Id>, ghost done: set<Id>, cid: Id, n: nat, visible: set<Id>, counts: map<Id, nat>)
    returns (v: set<Id>, m: map<Id, nat>)
    requires cid !in done && n == CountDirect(products, cid) > 0
    requires Positive(visible, counts) && CountsAmong(rows, products, done, counts)
    ensures Positive(v, m) && CountsAmong(rows, products, done + {cid}, m)
  {
    hide Chain, CountAmong, CountDirect;
    var chain := AncestorChain(rows, cid);
    ChainIsFirstAncestors(rows, cid, cid);
    v, m := AddAlong(chain, n, visible, counts);
    forall a | a in m
      ensures m[a] > 0
    {
      assert Get(m, a) == Get(counts, a) + if a in chain then n else 0;
    }
    forall a: Id
      ensures Get(m, a) == CountAmong(rows, products, done + {cid}, a)
    {
      AmongOneMore(rows, products, done, cid, a);
      assert Get(counts, a) == CountAmong(rows, products, done, a);
    }
  }

  lemma CoveredAll(rows: Table, products: seq<Id>, done: set<Id>, visible: set<Id>, counts: map<Id, nat>)
    requires Positive(visible, counts) && CountsAmong(rows, products, done, counts)
    requires forall c | c in products :: c in done
    ensures forall a: Id :: Get(counts, a) == CountUnder(rows, products, a)
    ensures forall a: Id :: a in visible <==> CountUnder(rows, products, a) > 0
  {
    hide CountAmong, CountUnder;
    forall a: Id
      ensures Get(counts, a) == CountUnder(rows, products, a)
    {
      AmongAll(rows, products, done, a);
    }
  }

  lemma CoveredNone(rows: Table, products: seq<Id>)
    ensures CountsAmong(rows, products, {}, map[])
  {
    forall a: Id
      ensures CountAmong(rows, products, {}, a) == 0
    {
      AmongNone(rows, products, a);
    }
  }

  /**
   Visible categories and subtree counts for any product set, given as the products' category
   ids: a category is visible when some walk passes through it, and counts every such product.
   */
  method TreeFromProducts(rows: Table, products: seq<Id>) returns (visible: set<Id>, counts: map<Id, nat>)
    ensures counts.Keys == visible
    ensures forall a: Id :: a in visible <==> CountUnder(rows, products, a) > 0
    ensures forall a: Id :: Get(counts, a) == CountUnder(rows, products, a)
  {
    hide CountDirect, CountUnder, CountsAmong;
    var direct := DirectCounts(products);
    visible, counts := {}, map[];
    CoveredNone(rows, products);
    var todo := direct.Keys;
    ghost var done: set<Id> := {};
    while todo != {}
      invariant done !! todo && done + todo == direct.Keys
      invariant Positive(visible, counts) && CountsAmong(rows, products, done, counts)
      decreases |todo|
    {
      var cid :| cid in todo;
      CountDirectPositive(products, cid);
      assert Get(direct, cid) == CountDirect(products, cid);
      visible, counts := AddCategory(rows, products, done, cid, direct[cid], visible, counts);
      todo := todo - {cid};
      done := done + {cid};
    }
    CoveredAll(rows, products, done, visible, counts);
  }

  /* ---- What the counts mean on a well-formed tree ---- */

  /** x's upward walk is not cut: it reaches a root in fewer than 32 steps, so it meets no cycle. */
  predicate Shallow(rows: Table, x: Id) {
    Ancestor(rows, x, MAX_DEPTH) == None
  }

  ghost function SubtreeSize(rows: Table, products: seq<Id>, a: Id): nat {
    if products == [] then 0
    else SubtreeSize(rows, products[..|products| - 1], a)
         + if IsUnder(rows, products[|products| - 1], a) then 1 else 0
  }

  /** When no product sits too deep, a category's count is the number of products in its subtree. */
  lemma {:induction false} CountIsSubtreeSize(rows: Table, products: seq<Id>, a: Id)
    requires forall c | c in products :: Shallow(rows, c)
    ensures CountUnder(rows, products, a) == SubtreeSize(rows, products, a)
  {
    hide Chain, IsUnder;
    if products != [] {
      var last := products[|products| - 1];
      assert products == products[..|products| - 1] + [last];
      CountIsSubtreeSize(rows, products[..|products| - 1], a);
      WalksAgreeIff(rows, last);
      assert a in Chain(rows, last) <==> IsUnder(rows, last, a) by {
        assert Shallow(rows, last);
      }
    }
  }

  function HitsIn(rows: Table, children: seq<Id>, x: Id): nat {
    if children == [] then 0
    else HitsIn(rows, children[..|children| - 1], x) + if children[|children| - 1] in Chain(rows, x) then 1 else 0
  }

  lemma {:induction false} AtMostOneHit(rows: Table, children: seq<Id>, x: Id, hit: Option<Id>)
    requires Distinct(children)
    requires forall c | c in children :: c in Chain(rows, x) <==> Some(c) == hit
    ensures HitsIn(rows, children, x) == if hit.Some? && hit.value in children then 1 else 0
  {
    hide Chain;
    if children != [] {
      var before, last := children[..|children| - 1], children[|children| - 1];
      assert children == before + [last];
      AtMostOneHit(rows, before, x, hit);
      assert last !in before;
    }
  }

  lemma {:induction false} NoneAfterNone(rows: Table, x: Id, m: nat, n: nat)
    requires Ancestor(rows, x, m) == None && m <= n
    ensures Ancestor(rows, x, n) == None
  {
    AncestorAdds(rows, x, m, n - m);
  }

  /** A walk that ends meets no node twice. */
  lemma AncestorsDistinct(rows: Table, x: Id, m: nat, n: nat)
    requires Shallow(rows, x) && m < n
    requires Ancestor(rows, x, m).Some?
    ensures Ancestor(rows, x, m) != Ancestor(rows, x, n)
  {
    if Ancestor(rows, x, m) == Ancestor(rows, x, n) {
      var a := Ancestor(rows, x, m).value;
      var c := n - m;
      AncestorAdds(rows, x, m, c);
      CycleRepeats(rows, a, c, MAX_DEPTH);
      AncestorAdds(rows, x, m, c * MAX_DEPTH);
      assert m + c * MAX_DEPTH >= MAX_DEPTH;
      NoneAfterNone(rows, x, MAX_DEPTH, m + c * MAX_DEPTH);
    }
  }

  /** A child of a on the walk is the step just before a. */
  lemma ChildOnWalk(rows: Table, x: Id, a: Id, c: Id) returns (n: nat)
    requires Shallow(rows, x) && ParentOf(rows, c) == Some(a) && c in Chain(rows, x)
    ensures 0 < n < MAX_DEPTH && Ancestor(rows, x, n) == Some(a) && Ancestor(rows, x, n - 1) == Some(c)
    ensures a in Chain(rows, x)
  {
    hide Chain;
    ChainIsFirstAncestors(rows, x, c);
    ChainIsFirstAncestors(rows, x, a);
    var m: nat :| m < MAX_DEPTH && Ancestor(rows, x, m) == Some(c);
    n := m + 1;
    assert Ancestor(rows, x, n) == Some(a);
  }

  /** Under a, a product is filed directly or under exactly one child of a. */
  lemma OneWayDown(rows: Table, x: Id, a: Id)
    requires UniqueIds(rows) && Shallow(rows, x)
    ensures (if a in Chain(rows, x) then 1 else 0)
         == (if x == a then 1 else 0) + HitsIn(rows, ChildrenOf(rows, [a]), x)
  {
    hide Chain;
    var children := ChildrenOf(rows, [a]);
    ChainIsFirstAncestors(rows, x, a);
    ChildrenOfExact(rows, [a], a);
    var hit: Option<Id> := None;
    if a in Chain(rows, x) && x != a {
      var n: nat :| n < MAX_DEPTH && Ancestor(rows, x, n) == Some(a);
      assert n > 0;
      hit := Ancestor(rows, x, n - 1);
      HitIsChild(rows, x, a, n);
    }
    forall c | c in children
      ensures c in Chain(rows, x) <==> Some(c) == hit
    {
      ChildrenOfExact(rows, [a], c);
      if c in Chain(rows, x) {
        var m := ChildOnWalk(rows, x, a, c);
        if x == a {
          AncestorsDistinct(rows, x, 0, m);
        } else {
          var n: nat :| n < MAX_DEPTH && Ancestor(rows, x, n) == Some(a) && hit == Ancestor(rows, x, n - 1);
          SameStep(rows, x, m, n);
        }
      }
    }
    AtMostOneHit(rows, children, x, hit);
  }

  lemma HitIsChild(rows: Table, x: Id, a: Id, n: nat)
    requires UniqueIds(rows) && 0 < n < MAX_DEPTH && Ancestor(rows, x, n) == Some(a)
    ensures var c := Ancestor(rows, x, n - 1);
            c.Some? && c.value in ChildrenOf(rows, [a]) && c.value in Chain(rows, x)
  {
    hide Chain;
    var c := Ancestor(rows, x, n - 1).value;
    ChildrenOfExact(rows, [a], c);
    ChainIsFirstAncestors(rows, x, c);
  }

  lemma SameStep(rows: Table, x: Id, m: nat, n: nat)
    requires Shallow(rows, x)
    requires Ancestor(rows, x, m).Some? && Ancestor(rows, x, m) == Ancestor(rows, x, n)
    ensures m == n
  {
    if m < n {
      AncestorsDistinct(rows, x, m, n);
    } else if n < m {
      AncestorsDistinct(rows, x, n, m);
    }
  }

  function ChildCounts(rows: Table, products: seq<Id>, children: seq<Id>): nat {
    if children == [] then 0
    else ChildCounts(rows, products, children[..|children| - 1]) + CountUnder(rows, products, children[|children| - 1])
  }

  lemma {:induction false} ChildCountsStep(rows: Table, products: seq<Id>, children: seq<Id>)
    requires products != []
    ensures ChildCounts(rows, products, children)
         == ChildCounts(rows, products[..|products| - 1], children) + HitsIn(rows, children, products[|products| - 1])
  {
    hide Chain;
    if children != [] {
      ChildCountsStep(rows, products, children[..|children| - 1]);
    }
  }

  lemma {:induction false} ChildCountsOfNothing(rows: Table, children: seq<Id>)
    ensures ChildCounts(rows, [], children) == 0
  {
    if children != [] {
      ChildCountsOfNothing(rows, children[..|children| - 1]);
    }
  }

  /** A tile reports its own products and everything its children report, nothing twice. */
  lemma {:induction false} CountAddsUp(rows: Table, products: seq<Id>, a: Id)
    requires UniqueIds(rows) && forall c | c in products :: Shallow(rows, c)
    ensures CountUnder(rows, products, a)
         == CountDirect(products, a) + ChildCounts(rows, products, ChildrenOf(rows, [a]))
  {
    hide Chain, UniqueIds, ChildrenOf;
    if products == [] {
      ChildCountsOfNothing(rows, ChildrenOf(rows, [a]));
    } else {
      var last := products[|products| - 1];
      assert products == products[..|products| - 1] + [last];
      CountAddsUp(rows, products[..|products| - 1], a);
      OneWayDown(rows, last, a);
      ChildCountsStep(rows, products, ChildrenOf(rows, [a]));
    }
  }

  /** Above a visible category everything is visible. */
  lemma VisibleIsClosedUpwards(rows: Table, products: seq<Id>, v: Id, p: Id)
    requires forall c | c in products :: Shallow(rows, c)
    requires CountUnder(rows, products, v) > 0 && ParentOf(rows, v) == Some(p)
    ensures CountUnder(rows, products, p) > 0
  {
    hide Chain;
    CountPositiveIff(rows, products, v);
    CountPositiveIff(rows, products, p);
    var c :| c in products && v in Chain(rows, c);
    var n := ChildOnWalk(rows, c, p, v);
  }

  /* ---- Stand-in pictures ---- */

  datatype Pictured = Pictured(category: Id, image: string)

  /** The first pictured product whose walk passes through a. */
  function FirstPicture(rows: Table, products: seq<Pictured>, a: Id): Option<string> {
    if products == [] then None
    else
      match FirstPicture(rows, products[..|products| - 1], a)
      case Some(image) => Some(image)
      case None =>
        var last := products[|products| - 1];
        if a in Chain(rows, last.category) then Some(last.image) else None
  }

  function Shown(images: map<Id, string>, a: Id): Option<string> {
    if a in images then Some(images[a]) else None
  }

  /** Each node of a chain takes the picture unless it has one already. */
  method OfferAlong(chain: seq<Id>, image: string, images: map<Id, string>) returns (r: map<Id, string>)
    ensures forall a: Id :: Shown(r, a) == if a in images then Shown(images, a) else if a in chain then Some(image) else None
  {
    r := images;
    for j := 0 to |chain|
      invariant forall a: Id :: Shown(r, a) == if a in images then Shown(images, a) else if a in chain[..j] then Some(image) else None
    {
      assert chain[..j + 1] == chain[..j] + [chain[j]];
      if chain[j] !in r {
        r := r[chain[j] := image];
      }
    }
    assert chain[..|chain|] == chain;
  }

  method RepresentativeImages(rows: Table, products: seq<Pictured>) returns (images: map<Id, string>)
    ensures forall a: Id :: Shown(images, a) == FirstPicture(rows, products, a)
  {
    hide Chain;
    images := map[];
    for i := 0 to |products|
      invariant forall a: Id :: Shown(images, a) == FirstPicture(rows, products[..i], a)
    {
      assert products[..i + 1][..i] == products[..i];
      var chain := AncestorChain(rows, products[i].category);
      images := OfferAlong(chain, products[i].image, images);
    }
    assert products[..|products|] == products;
  }

  /** A category gets a picture exactly when some pictured product counts towards it. */
  lemma {:induction false} PicturedIffCounted(rows: Table, products: seq<Pictured>, a: Id)
    ensures FirstPicture(rows, products, a).Some? <==> exists p :: p in products && a in Chain(rows, p.category)
  {
    hide Chain;
    if products != [] {
      var last := products[|products| - 1];
      assert products == products[..|products| - 1] + [last];
      assert last in products;
      PicturedIffCounted(rows, products[..|products| - 1], a);
    }
  }

  /** The picture is that of the first pictured product which counts towards the category, in the order given. */
  lemma {:induction false} PictureIsTheFirst(rows: Table, products: seq<Pictured>, a: Id, i: nat)
    requires i < |products| && IsNear(rows, products[i].category, a)
    requires forall j: nat | j < i :: !IsNear(rows, products[j].category, a)
    ensures FirstPicture(rows, products, a) == Some(products[i].image)
    decreases |products|
  {
    hide Chain, IsNear;
    var before := products[..|products| - 1];
    if i < |before| {
      PictureIsTheFirst(rows, before, a, i);
    } else {
      ChainIsFirstAncestors(rows, products[i].category, a);
      forall p | p in before
        ensures a !in Chain(rows, p.category)
      {
        var j: nat :| j < |before| && before[j] == p;
        assert !IsNear(rows, products[j].category, a);
        ChainIsFirstAncestors(rows, p.category, a);
      }
      PicturedIffCounted(rows, before, a);
    }
  }
}
