/**
 The category table, walked two ways: upwards from a product's category, bounded and guarded
 against cycles, to count products; and downwards level by level, to delete a subtree.
 */
module CategoryTree {
  import opened Common

  type Id = nat

  const MAX_DEPTH: nat := 32

  datatype Category = Category(id: Id, parent: Option<Id>)

  type Table = seq<Category>

  predicate UniqueIds(rows: Table) {
    forall i, j | 0 <= i < j < |rows| :: rows[i].id != rows[j].id
  }

  predicate HasRow(rows: Table, x: Id) {
    exists r :: r in rows && r.id == x
  }

  /** parents.get(x): nothing for a root and for an id that is not in the table. */
  function ParentOf(rows: Table, x: Id): Option<Id> {
    if rows == [] then None
    else if rows[|rows| - 1].id == x then rows[|rows| - 1].parent
    else ParentOf(rows[..|rows| - 1], x)
  }

  /** The n-th ancestor; the 0-th is the category itself. */
  function Ancestor(rows: Table, x: Id, n: nat): Option<Id> {
    if n == 0 then Some(x)
    else
      match Ancestor(rows, x, n - 1)
      case None => None
      case Some(y) => ParentOf(rows, y)
  }

  lemma {:induction false} AncestorAdds(rows: Table, x: Id, m: nat, n: nat)
    ensures Ancestor(rows, x, m + n) ==
            match Ancestor(rows, x, m) case None => None case Some(y) => Ancestor(rows, y, n)
  {
    if n > 0 {
      AncestorAdds(rows, x, m, n - 1);
    }
  }

  ghost predicate IsUnder(rows: Table, x: Id, a: Id) {
    exists n: nat :: Ancestor(rows, x, n) == Some(a)
  }

  /** a is its own proper ancestor. */
  ghost predicate OnCycle(rows: Table, a: Id) {
    exists n: nat :: n > 0 && Ancestor(rows, a, n) == Some(a)
  }

  /* ---- Upwards ---- */

  /** The walk from a node, given the nodes already yielded. */
  function ChainFrom(rows: Table, node: Option<Id>, seen: seq<Id>): seq<Id>
    decreases MAX_DEPTH - |seen|
  {
    if node == None || node.value in seen || |seen| >= MAX_DEPTH then seen
    else ChainFrom(rows, ParentOf(rows, node.value), seen + [node.value])
  }

  function Chain(rows: Table, x: Id): seq<Id> {
    ChainFrom(rows, Some(x), [])
  }

  predicate Distinct(s: seq<Id>) {
    forall i, j | 0 <= i < j < |s| :: s[i] != s[j]
  }

  ghost predicate IsWalk(rows: Table, x: Id, s: seq<Id>) {
    forall i: nat | i < |s| :: Ancestor(rows, x, i) == Some(s[i])
  }

  /** Why a walk may stop: no parent, a node seen before, or the depth bound. */
  predicate Stops(rows: Table, x: Id, s: seq<Id>) {
    Ancestor(rows, x, |s|) == None || Ancestor(rows, x, |s|).value in s || |s| == MAX_DEPTH
  }

  lemma {:induction false} ChainFromIsWalk(rows: Table, x: Id, node: Option<Id>, seen: seq<Id>)
    requires node == Ancestor(rows, x, |seen|) && |seen| <= MAX_DEPTH
    requires IsWalk(rows, x, seen) && Distinct(seen)
    ensures var s := ChainFrom(rows, node, seen);
            && IsWalk(rows, x, s) && Distinct(s) && Stops(rows, x, s) && |seen| <= |s| <= MAX_DEPTH
            && (|s| == |seen| ==> node == None || node.value in seen || |seen| == MAX_DEPTH)
    decreases MAX_DEPTH - |seen|
  {
    if node.Some? && node.value !in seen && |seen| < MAX_DEPTH {
      ChainFromIsWalk(rows, x, ParentOf(rows, node.value), seen + [node.value]);
    }
  }

  /** Ancestors that come back to the first L never leave them again. */
  lemma {:induction false} ReturningStays(rows: Table, x: Id, s: seq<Id>, n: nat)
    requires IsWalk(rows, x, s)
    requires Ancestor(rows, x, |s|) == None || Ancestor(rows, x, |s|).value in s
    ensures Ancestor(rows, x, n) == None || Ancestor(rows, x, n).value in s
    decreases n
  {
    if n > |s| {
      ReturningStays(rows, x, s, n - 1);
      if Ancestor(rows, x, n - 1).Some? {
        var y := Ancestor(rows, x, n - 1).value;
        var i: nat :| i < |s| && s[i] == y;
        assert Ancestor(rows, x, i + 1) == ParentOf(rows, y);
        if i + 1 < |s| {
          assert Ancestor(rows, x, i + 1) == Some(s[i + 1]);
        }
      }
    } else if n < |s| {
      assert Ancestor(rows, x, n) == Some(s[n]);
    }
  }

  /** a is among the first 32 ancestors of x, x itself included. */
  ghost predicate IsNear(rows: Table, x: Id, a: Id) {
    exists n: nat :: n < MAX_DEPTH && Ancestor(rows, x, n) == Some(a)
  }

  /** On any parent map, cyclic or not, the walk yields exactly the first 32 ancestors, once each. */
  lemma ChainIsFirstAncestors(rows: Table, x: Id, a: Id)
    ensures Distinct(Chain(rows, x)) && 0 < |Chain(rows, x)| <= MAX_DEPTH && Chain(rows, x)[0] == x
    ensures a in Chain(rows, x) <==> IsNear(rows, x, a)
  {
    var s := Chain(rows, x);
    ChainFromIsWalk(rows, x, Some(x), []);
    if a in s {
      var i: nat :| i < |s| && s[i] == a;
      assert Ancestor(rows, x, i) == Some(a);
    }
    if IsNear(rows, x, a) {
      var n: nat :| n < MAX_DEPTH && Ancestor(rows, x, n) == Some(a);
      if n < |s| {
        assert Ancestor(rows, x, n) == Some(s[n]);
      } else {
        ReturningStays(rows, x, s, n);
      }
      assert a in s;
    }
    assert Some(x) == Ancestor(rows, x, 0) == Some(s[0]);
  }

  /* ---- Downwards ---- */

  /** Category.objects.filter(parent_id__in=frontier), as ids. */
  function ChildrenOf(rows: Table, frontier: seq<Id>): seq<Id> {
    if rows == [] then []
    else
      var last := rows[|rows| - 1];
      ChildrenOf(rows[..|rows| - 1], frontier)
      + if last.parent.Some? && last.parent.value in frontier then [last.id] else []
  }

  lemma {:induction false} ChildrenOfExact(rows: Table, frontier: seq<Id>, x: Id)
    requires UniqueIds(rows)
    ensures x in ChildrenOf(rows, frontier) <==> ParentOf(rows, x).Some? && ParentOf(rows, x).value in frontier
    ensures x in ChildrenOf(rows, frontier) ==> HasRow(rows, x)
    ensures Distinct(ChildrenOf(rows, frontier))
  {
    if rows != [] {
      var before, last := rows[..|rows| - 1], rows[|rows| - 1];
      assert rows == before + [last];
      ChildrenOfExact(before, frontier, x);
      ChildrenOfExact(before, frontier, last.id);
      NoRowNoParent(before, last.id);
    }
  }

  lemma {:induction false} NoRowNoParent(rows: Table, x: Id)
    requires !HasRow(rows, x)
    ensures ParentOf(rows, x) == None
  {
    if rows != [] {
      assert rows == rows[..|rows| - 1] + [rows[|rows| - 1]];
      assert rows[|rows| - 1] in rows;
      NoRowNoParent(rows[..|rows| - 1], x);
    }
  }

  function Layer(rows: Table, a: Id, n: nat): seq<Id> {
    if n == 0 then [a] else ChildrenOf(rows, Layer(rows, a, n - 1))
  }

  /** The n-th level down from a holds exactly the categories whose n-th ancestor is a. */
  lemma {:induction false} LayerExact(rows: Table, a: Id, n: nat, x: Id)
    requires UniqueIds(rows)
    ensures x in Layer(rows, a, n) <==> Ancestor(rows, x, n) == Some(a)
    ensures Distinct(Layer(rows, a, n))
    ensures n > 0 && x in Layer(rows, a, n) ==> HasRow(rows, x)
  {
    if n > 0 {
      ChildrenOfExact(rows, Layer(rows, a, n - 1), x);
      AncestorAdds(rows, x, 1, n - 1);
      assert Ancestor(rows, x, 1) == ParentOf(rows, x) by {
        assert Ancestor(rows, x, 0) == Some(x);
      }
      if ParentOf(rows, x).Some? {
        LayerExact(rows, a, n - 1, ParentOf(rows, x).value);
      }
    }
  }

  /** Off a cycle the levels share no category. */
  lemma LayersDisjoint(rows: Table, a: Id, m: nat, n: nat, x: Id)
    requires UniqueIds(rows) && !OnCycle(rows, a) && m < n
    requires x in Layer(rows, a, m)
    ensures x !in Layer(rows, a, n)
  {
    LayerExact(rows, a, m, x);
    LayerExact(rows, a, n, x);
    AncestorAdds(rows, x, m, n - m);
  }

  /** On a cycle no level is ever empty, so the downward loop would not end. */
  lemma CycleNeverEnds(rows: Table, a: Id, n: nat)
    requires UniqueIds(rows) && OnCycle(rows, a)
    ensures Layer(rows, a, n) != []
  {
    var c: nat :| c > 0 && Ancestor(rows, a, c) == Some(a);
    CycleRepeats(rows, a, c, n);
    assert c * n >= n;
    AncestorAdds(rows, a, c * n - n, n);
    var x := Ancestor(rows, a, c * n - n).value;
    LayerExact(rows, a, n, x);
  }

  /** Two categories that are each other's parent: every level down from either holds one of them. */
  lemma TwoCategoriesNeverEnd(n: nat)
    ensures var rows := [Category(1, Some(2)), Category(2, Some(1))]; UniqueIds(rows) && Layer(rows, 1, n) != []
  {
    var rows := [Category(1, Some(2)), Category(2, Some(1))];
    assert rows[..1] == [Category(1, Some(2))];
    assert ParentOf(rows, 1) == Some(2) && ParentOf(rows, 2) == Some(1);
    assert Ancestor(rows, 1, 0) == Some(1);
    assert Ancestor(rows, 1, 1) == Some(2);
    assert Ancestor(rows, 1, 2) == Some(1);
    CycleNeverEnds(rows, 1, n);
  }

  lemma {:induction false} CycleRepeats(rows: Table, a: Id, c: nat, k: nat)
    requires Ancestor(rows, a, c) == Some(a)
    ensures Ancestor(rows, a, c * k) == Some(a)
  {
    if k > 0 {
      CycleRepeats(rows, a, c, k - 1);
      AncestorAdds(rows, a, c * (k - 1), c);
      assert c * (k - 1) + c == c * k;
    }
  }

  /** Distinct ids drawn from the table are no more than its rows. */
  lemma {:induction false} DistinctFit(rows: Table, s: seq<Id>)
    requires Distinct(s) && forall x | x in s :: HasRow(rows, x)
    ensures |s| <= |rows|
    decreases |rows|
  {
    if s != [] {
      assert s[0] in s;
      var r :| r in rows && r.id == s[0];
      var last, before := rows[|rows| - 1], rows[..|rows| - 1];
      assert rows == before + [last];
      if last.id in s {
        var i :| 0 <= i < |s| && s[i] == last.id;
        var t := s[..i] + s[i + 1..];
        forall x | x in t
          ensures HasRow(before, x)
        {
          assert x in s && x != last.id;
          var q :| q in rows && q.id == x;
          assert q in before;
        }
        DistinctFit(before, t);
      } else {
        forall x | x in s
          ensures HasRow(before, x)
        {
          var q :| q in rows && q.id == x;
          assert q in before;
        }
        DistinctFit(before, s);
      }
    }
  }

  /** The levels 0..n in one list. */
  function Levels(rows: Table, a: Id, n: nat): seq<Id> {
    if n == 0 then Layer(rows, a, 0) else Levels(rows, a, n - 1) + Layer(rows, a, n)
  }

  ghost predicate OnSomeLevel(rows: Table, a: Id, n: nat, x: Id) {
    exists m: nat :: m <= n && x in Layer(rows, a, m)
  }

  lemma {:induction false} LevelsAreLayers(rows: Table, a: Id, n: nat, x: Id)
    ensures x in Levels(rows, a, n) <==> OnSomeLevel(rows, a, n, x)
  {
    if n > 0 {
      LevelsAreLayers(rows, a, n - 1, x);
      if OnSomeLevel(rows, a, n, x) {
        var m: nat :| m <= n && x in Layer(rows, a, m);
        assert m < n ==> OnSomeLevel(rows, a, n - 1, x);
      }
    } else {
      assert x in Levels(rows, a, n) ==> x in Layer(rows, a, 0);
    }
  }

  lemma LevelHasRows(rows: Table, a: Id, n: nat, x: Id)
    requires UniqueIds(rows) && HasRow(rows, a)
    requires x in Levels(rows, a, n)
    ensures HasRow(rows, x)
  {
    LevelsAreLayers(rows, a, n, x);
    var m: nat :| m <= n && x in Layer(rows, a, m);
    LayerExact(rows, a, m, x);
  }

  lemma LevelIsNew(rows: Table, a: Id, n: nat, x: Id)
    requires UniqueIds(rows) && !OnCycle(rows, a)
    requires x in Layer(rows, a, n + 1)
    ensures x !in Levels(rows, a, n)
  {
    hide UniqueIds, OnCycle, Layer, Levels;
    LevelsAreLayers(rows, a, n, x);
    if OnSomeLevel(rows, a, n, x) {
      var m: nat :| m <= n && x in Layer(rows, a, m);
      LayersDisjoint(rows, a, m, n + 1, x);
    }
  }

  lemma FirstLevelDistinct(rows: Table, a: Id)
    ensures Distinct(Levels(rows, a, 0))
  {
    assert Levels(rows, a, 0) == [a];
  }

  lemma LevelsNext(rows: Table, a: Id, n: nat)
    ensures Levels(rows, a, n + 1) == Levels(rows, a, n) + Layer(rows, a, n + 1)
  {
    hide Layer;
  }

  lemma {:induction false} LevelsDistinct(rows: Table, a: Id, n: nat)
    requires UniqueIds(rows) && !OnCycle(rows, a)
    ensures Distinct(Levels(rows, a, n))
  {
    hide *;
    if n == 0 {
      FirstLevelDistinct(rows, a);
    } else {
      LevelsDistinct(rows, a, n - 1);
      LevelsNext(rows, a, n - 1);
      LayerExact(rows, a, n, a);
      forall x | x in Layer(rows, a, n)
        ensures x !in Levels(rows, a, n - 1)
      {
        LevelIsNew(rows, a, n - 1, x);
      }
      DistinctAppend(Levels(rows, a, n - 1), Layer(rows, a, n));
    }
  }

  lemma DistinctAppend(s: seq<Id>, t: seq<Id>)
    requires Distinct(s) && Distinct(t) && forall x | x in t :: x !in s
    ensures Distinct(s + t)
  {
    forall i, j | 0 <= i < j < |s + t|
      ensures (s + t)[i] != (s + t)[j]
    {
      assert |s| <= j ==> (s + t)[j] == t[j - |s|] && t[j - |s|] in t;
    }
  }

  lemma LevelsFit(rows: Table, a: Id, n: nat)
    requires UniqueIds(rows) && HasRow(rows, a) && !OnCycle(rows, a)
    ensures |Levels(rows, a, n)| <= |rows|
  {
    LevelsDistinct(rows, a, n);
    forall x | x in Levels(rows, a, n)
      ensures HasRow(rows, x)
    {
      LevelHasRows(rows, a, n, x);
    }
    DistinctFit(rows, Levels(rows, a, n));
  }

  lemma {:induction false} EmptyLevelsStay(rows: Table, a: Id, n: nat, m: nat)
    requires UniqueIds(rows) && Layer(rows, a, n) == [] && n <= m
    ensures Layer(rows, a, m) == []
    decreases m
  {
    if n < m {
      EmptyLevelsStay(rows, a, n, m - 1);
      if Layer(rows, a, m) != [] {
        var x := Layer(rows, a, m)[0];
        ChildrenOfExact(rows, Layer(rows, a, m - 1), x);
      }
    }
  }

  /**
   The category and every descendant, each exactly once. The loop ends exactly because the
   category is not its own ancestor; see CycleNeverEnds for the other case.
   */
  method SubtreeIds(rows: Table, a: Id) returns (ids: seq<Id>)
    requires UniqueIds(rows) && HasRow(rows, a)
    requires !OnCycle(rows, a)
    ensures Distinct(ids) && forall x :: x in ids <==> IsUnder(rows, x, a)
    ensures forall x | x in ids :: HasRow(rows, x)
  {
    ids := [a];
    var frontier := [a];
    ghost var n := 0;
    LevelsFit(rows, a, 0);
    while frontier != []
      invariant frontier == Layer(rows, a, n)
      invariant ids == Levels(rows, a, n)
      invariant |ids| <= |rows|
      decreases |rows| - |ids| + |frontier|
    {
      frontier := ChildrenOf(rows, frontier);
      ids := ids + frontier;
      n := n + 1;
      LevelsFit(rows, a, n);
    }
    LevelsDistinct(rows, a, n);
    forall x: Id
      ensures x in ids <==> IsUnder(rows, x, a)
      ensures x in ids ==> HasRow(rows, x)
    {
      LevelsAreUnder(rows, a, n, x);
    }
  }

  /** Once a level is empty, the levels so far hold everything under a. */
  lemma LevelsAreUnder(rows: Table, a: Id, n: nat, x: Id)
    requires UniqueIds(rows) && HasRow(rows, a) && Layer(rows, a, n) == []
    ensures x in Levels(rows, a, n) <==> IsUnder(rows, x, a)
    ensures x in Levels(rows, a, n) ==> HasRow(rows, x)
  {
    LevelsAreLayers(rows, a, n, x);
    if x in Levels(rows, a, n) {
      LevelHasRows(rows, a, n, x);
      var m: nat :| m <= n && x in Layer(rows, a, m);
      LayerExact(rows, a, m, x);
    }
    if IsUnder(rows, x, a) {
      var m: nat :| Ancestor(rows, x, m) == Some(a);
      LayerExact(rows, a, m, x);
      if m >= n {
        EmptyLevelsStay(rows, a, n, m);
      }
    }
  }

  /* ---- The two walks agree ---- */

  /**
   Looking up from x and down to x name the same pairs exactly when the upward walk was not
   cut by its depth bound: there is no 32nd ancestor, or it is also a nearer one.
   */
  lemma WalksAgreeIff(rows: Table, x: Id)
    ensures (forall a :: a in Chain(rows, x) <==> IsUnder(rows, x, a))
       <==> Ancestor(rows, x, MAX_DEPTH) == None || IsNear(rows, x, Ancestor(rows, x, MAX_DEPTH).value)
  {
    var s := Chain(rows, x);
    ChainFromIsWalk(rows, x, Some(x), []);
    if Ancestor(rows, x, MAX_DEPTH).Some? {
      ChainIsFirstAncestors(rows, x, Ancestor(rows, x, MAX_DEPTH).value);
    }
    if Ancestor(rows, x, MAX_DEPTH) == None || Ancestor(rows, x, MAX_DEPTH).value in s {
      forall a: Id
        ensures a in s <==> IsUnder(rows, x, a)
      {
        ChainIsFirstAncestors(rows, x, a);
        if IsUnder(rows, x, a) {
          var n: nat :| Ancestor(rows, x, n) == Some(a);
          ReturningStays(rows, x, s, n);
        }
      }
    } else {
      assert IsUnder(rows, x, Ancestor(rows, x, MAX_DEPTH).value);
    }
  }

  /** n + 1 categories in one line: 0 is the root, each next one is the child of the one before. */
  function Ladder(n: nat): Table {
    if n == 0 then [Category(0, None)] else Ladder(n - 1) + [Category(n, Some(n - 1))]
  }

  lemma {:induction false} LadderParents(n: nat, x: Id)
    ensures |Ladder(n)| == n + 1
    ensures ParentOf(Ladder(n), x) == if 1 <= x <= n then Some(x - 1) else None
  {
    if n > 0 {
      LadderParents(n - 1, x);
      assert Ladder(n)[..n] == Ladder(n - 1);
    }
  }

  lemma {:induction false} LadderAncestor(n: nat, k: nat)
    requires k <= n
    ensures Ancestor(Ladder(n), n, k) == Some(n - k)
  {
    if k > 0 {
      LadderAncestor(n, k - 1);
      LadderParents(n, n - (k - 1));
    }
  }

  /** A category 32 levels down is under the root, but its upward walk stops short of it. */
  lemma DeepCategoryMissesItsRoot()
    ensures IsUnder(Ladder(MAX_DEPTH), MAX_DEPTH, 0) && 0 !in Chain(Ladder(MAX_DEPTH), MAX_DEPTH)
  {
    hide Ladder;
    LadderAncestor(MAX_DEPTH, MAX_DEPTH);
    ChainIsFirstAncestors(Ladder(MAX_DEPTH), MAX_DEPTH, 0);
    forall n: nat | n < MAX_DEPTH
      ensures Ancestor(Ladder(MAX_DEPTH), MAX_DEPTH, n) != Some(0)
    {
      LadderAncestor(MAX_DEPTH, n);
    }
  }
}
