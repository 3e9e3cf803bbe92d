/**
 One list of signed amounts, walked from zero, with the running balance raised to zero
 after some of the steps. The credit ledger raises it after every entry, the billing cycle
 after every window, the integrity check only at the very end: three cut sets, one walk.
 */
module ClampedWalk {
  import opened Common

  /** The balance after all of s, raised to zero after the k-th amount for every k in cuts. */
  function Balance(s: seq<int>, cuts: set<nat>): int {
    if s == [] then 0
    else
      var b := Balance(s[..|s| - 1], cuts) + s[|s| - 1];
      if |s| in cuts then AtLeastZero(b) else b
  }

  /** The lowest of zero and the raw prefix sums at the cuts. */
  function Low(s: seq<int>, cuts: set<nat>): int {
    if s == [] then 0
    else
      var l := Low(s[..|s| - 1], cuts);
      if |s| in cuts then Min(l, Sum(s)) else l
  }

  /** The positions 1..n: clamp after every amount. */
  function EveryStep(n: nat): (r: set<nat>)
    ensures forall k: nat :: k in r <==> 1 <= k <= n
  {
    if n == 0 then {} else EveryStep(n - 1) + {n}
  }

  /** Closed form of every clamped walk: what was clamped away is exactly the low-water mark. */
  lemma {:induction false} ClosedForm(s: seq<int>, cuts: set<nat>)
    ensures Balance(s, cuts) == Sum(s) - Low(s, cuts)
  {
    if s != [] {
      ClosedForm(s[..|s| - 1], cuts);
    }
  }

  /** Low is a true minimum: a lower bound of zero and of every cut prefix sum, and attained. */
  lemma {:induction false} LowIsMinimum(s: seq<int>, cuts: set<nat>)
    ensures Low(s, cuts) <= 0
    ensures forall k: nat | k in cuts && k <= |s| :: Low(s, cuts) <= Sum(s[..k])
    ensures Low(s, cuts) == 0 || exists k: nat :: k in cuts && k <= |s| && Low(s, cuts) == Sum(s[..k])
  {
    if s != [] {
      var t := s[..|s| - 1];
      LowIsMinimum(t, cuts);
      assert s[..|s|] == s;
      forall k: nat | k in cuts && k <= |s|
        ensures Low(s, cuts) <= Sum(s[..k])
      {
        if k < |s| {
          assert s[..k] == t[..k];
        }
      }
      if Low(s, cuts) != 0 && Low(s, cuts) == Low(t, cuts) {
        var k: nat :| k in cuts && k <= |t| && Low(t, cuts) == Sum(t[..k]);
        assert s[..k] == t[..k];
      }
    }
  }

  /** Clamping at more places can only raise the balance. */
  lemma MoreCutsHigherBalance(s: seq<int>, few: set<nat>, many: set<nat>)
    requires forall k: nat | 1 <= k <= |s| && k in few :: k in many
    ensures Low(s, many) <= Low(s, few)
    ensures Balance(s, few) <= Balance(s, many)
  {
    LowIsMinimum(s, few);
    LowIsMinimum(s, many);
    if Low(s, few) != 0 {
      var k: nat :| k in few && k <= |s| && Low(s, few) == Sum(s[..k]);
      assert k != 0 by {
        assert s[..0] == [];
      }
    }
    ClosedForm(s, few);
    ClosedForm(s, many);
  }

  /** Only the cuts inside the list matter. */
  lemma {:induction false} CutsBeyondEnd(s: seq<int>, a: set<nat>, b: set<nat>)
    requires forall k: nat | 1 <= k <= |s| :: k in a <==> k in b
    ensures Balance(s, a) == Balance(s, b) && Low(s, a) == Low(s, b)
  {
    if s != [] {
      CutsBeyondEnd(s[..|s| - 1], a, b);
    }
  }

  /** Clamped once, at the end, the walk is the raw sum raised to zero. */
  lemma SingleCut(s: seq<int>)
    ensures Balance(s, {|s|}) == AtLeastZero(Sum(s))
    ensures Low(s, {|s|}) == Min(0, Sum(s))
  {
    var none: set<nat> := {};
    if s != [] {
      var t := s[..|s| - 1];
      CutsBeyondEnd(t, {|s|}, none);
      NoCuts(t);
    }
  }

  lemma {:induction false} NoCuts(s: seq<int>)
    ensures Balance(s, {}) == Sum(s) && Low(s, {}) == 0
  {
    if s != [] {
      NoCuts(s[..|s| - 1]);
    }
  }

  /** The clamp never fired in the whole walk exactly when no prefix sum is negative. */
  lemma NeverClampedIff(s: seq<int>)
    ensures Balance(s, EveryStep(|s|)) == Sum(s) <==> forall k: nat | k <= |s| :: Sum(s[..k]) >= 0
  {
    ClosedForm(s, EveryStep(|s|));
    LowIsMinimum(s, EveryStep(|s|));
    if forall k: nat | k <= |s| :: Sum(s[..k]) >= 0 {
      assert Low(s, EveryStep(|s|)) == 0;
    } else {
      var k: nat :| k <= |s| && Sum(s[..k]) < 0;
      assert k != 0 by {
        assert s[..0] == [];
      }
      assert k in EveryStep(|s|);
    }
  }

  /** Between two cuts the balance moves by the raw amounts. */
  lemma {:induction false} UncutStretch(s: seq<int>, n: nat, cuts: set<nat>)
    requires n <= |s| && forall k: nat | n < k <= |s| :: k !in cuts
    ensures Balance(s, cuts) == Balance(s[..n], cuts) + Sum(s) - Sum(s[..n])
  {
    if n == |s| {
      assert s[..n] == s;
    } else {
      UncutStretch(s[..|s| - 1], n, cuts);
      assert s[..|s| - 1][..n] == s[..n];
    }
  }

  /** A stretch that ends at its only cut clamps once, on its total. */
  lemma OneCutStretch(s: seq<int>, n: nat, cuts: set<nat>)
    requires n < |s| && |s| in cuts && forall k: nat | n < k < |s| :: k !in cuts
    ensures Balance(s, cuts) == AtLeastZero(Balance(s[..n], cuts) + Sum(s) - Sum(s[..n]))
  {
    var t := s[..|s| - 1];
    UncutStretch(t, n, cuts);
    assert t[..n] == s[..n];
  }

  /** Two walks of one list agree at its end exactly when the finer one never dips below the coarser one's low. */
  lemma CoarserAgreesIff(s: seq<int>, few: set<nat>)
    ensures Balance(s, few) == Balance(s, EveryStep(|s|))
       <==> forall k: nat | k <= |s| :: Low(s, few) <= Sum(s[..k])
  {
    var all := EveryStep(|s|);
    ClosedForm(s, few);
    ClosedForm(s, all);
    LowIsMinimum(s, few);
    LowIsMinimum(s, all);
    MoreCutsHigherBalance(s, few, all);
    if Low(s, few) == Low(s, all) {
      forall k: nat | k <= |s|
        ensures Low(s, few) <= Sum(s[..k])
      {
        if k == 0 {
          assert s[..k] == [];
        } else {
          assert k in all;
        }
      }
    }
  }
}
