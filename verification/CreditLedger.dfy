/**
 The credit account, its append-only ledger and its cached balance. Amounts are in paise and
 signed: purchases, fees and positive adjustments add to the debt.
 */
module CreditLedger {
  import opened Common
  import opened Calendar
  import opened ClampedWalk

  datatype EntryType = Purchase | Repayment | Fee | Adjustment | Refund

  datatype Entry = Entry(date: Day, kind: EntryType, amount: int, balanceAfter: int)

  datatype StatementStatus = Open | Paid | PartiallyPaid | Overdue

  datatype Statement = Statement(
    start: Day,
    end: Day,
    opening: int,
    purchases: int,
    payments: int,
    fees: int,
    closing: int,
    dueDate: Day,
    status: StatementStatus
  )

  datatype AccountStatus = Active | Frozen | Closed

  datatype CreditError = NotActive | KycIncomplete | NotEnabled | ExceedsAvailable | InvalidLimit

  /** The columns a balance change reads and writes. */
  datatype Book = Book(limit: int, outstanding: int, entries: seq<Entry>)

  function Amounts(entries: seq<Entry>): (r: seq<int>)
    ensures |r| == |entries|
  {
    if entries == [] then [] else Amounts(entries[..|entries| - 1]) + [entries[|entries| - 1].amount]
  }

  lemma {:induction false} AmountsAppend(a: seq<Entry>, b: seq<Entry>)
    ensures Amounts(a + b) == Amounts(a) + Amounts(b)
  {
    if b == [] {
      assert a + b == a;
    } else {
      assert (a + b)[..|a + b| - 1] == a + b[..|b| - 1];
      AmountsAppend(a, b[..|b| - 1]);
    }
  }

  /** What one locked posting does: refuse over the limit, else append and cache the raised sum. */
  function Posted(b: Book, date: Day, kind: EntryType, amount: int, enforceLimit: bool): Result<Book, CreditError> {
    var raw := b.outstanding + amount;
    if enforceLimit && raw > b.limit then Err(ExceedsAvailable)
    else
      var balance := AtLeastZero(raw);
      Ok(b.(outstanding := balance, entries := b.entries + [Entry(date, kind, amount, balance)]))
  }

  predicate DatesSorted(entries: seq<Entry>) {
    forall i, j | 0 <= i < j < |entries| :: entries[i].date <= entries[j].date
  }

  /** SUM(amount) over the ledger. */
  function LedgerSum(entries: seq<Entry>): int {
    Sum(Amounts(entries))
  }

  class CreditAccount {
    const cycle: Cycle
    var creditLimit: int
    var sanctionedLimit: Option<int>
    var outstanding: int
    var status: AccountStatus
    var kycVerified: bool
    var creditEnabled: bool
    var entries: seq<Entry>
    var statements: seq<Statement>

    constructor (cycle: Cycle, limit: int)
      ensures this.cycle == cycle && Snapshot() == Book(limit, 0, []) && statements == []
      ensures status == Active && sanctionedLimit == None && !kycVerified && !creditEnabled
    {
      this.cycle := cycle;
      creditLimit, outstanding, entries, statements := limit, 0, [], [];
      status, sanctionedLimit, kycVerified, creditEnabled := Active, None, false, false;
    }

    function Snapshot(): Book
      reads this
    {
      Book(creditLimit, outstanding, entries)
    }

    function Available(): int
      reads this
    {
      AtLeastZero(creditLimit - outstanding)
    }

    /** The locked part of every balance change; atomic, since the account row is held throughout. */
    method Post(date: Day, kind: EntryType, amount: int, enforceLimit: bool) returns (r: Result<Entry, CreditError>)
      modifies this`outstanding, this`entries
      ensures match Posted(old(Snapshot()), date, kind, amount, enforceLimit)
              case Ok(b) => Snapshot() == b && entries != [] && r == Ok(entries[|entries| - 1])
              case Err(e) => r == Err(e) && Snapshot() == old(Snapshot())
    {
      var newOutstanding := outstanding + amount;
      if enforceLimit && newOutstanding > creditLimit {
        return Err(ExceedsAvailable);
      }
      if newOutstanding < 0 {
        newOutstanding := 0;
      }
      var entry := Entry(date, kind, amount, newOutstanding);
      entries := entries + [entry];
      outstanding := newOutstanding;
      return Ok(entry);
    }

    method AssertCreditEligible() returns (r: Option<CreditError>)
      ensures r == None <==> status == Active && kycVerified && creditEnabled
      ensures r == Some(NotActive) <==> status != Active
      ensures r == Some(KycIncomplete) <==> status == Active && !kycVerified
      ensures r == Some(NotEnabled) <==> status == Active && kycVerified && !creditEnabled
    {
      if status != Active {
        return Some(NotActive);
      }
      if !kycVerified {
        return Some(KycIncomplete);
      }
      if !creditEnabled {
        return Some(NotEnabled);
      }
      return None;
    }

    /** Charge a purchase: on success the whole debt is within the limit. */
    method DebitPurchase(date: Day, amount: int) returns (r: Result<Entry, CreditError>)
      modifies this`outstanding, this`entries
      ensures r.Ok? <==> status == Active && kycVerified && creditEnabled
                         && amount <= AtLeastZero(creditLimit - old(outstanding)) && old(outstanding) + amount <= creditLimit
      ensures r.Ok? ==> Posted(old(Snapshot()), date, Purchase, amount, true) == Ok(Snapshot())
      ensures r.Ok? && creditLimit >= 0 ==> outstanding <= creditLimit
      ensures r.Err? ==> Snapshot() == old(Snapshot())
    {
      var refusal := AssertCreditEligible();
      if refusal.Some? {
        return Err(refusal.value);
      }
      if amount > Available() {
        return Err(ExceedsAvailable);
      }
      r := Post(date, Purchase, amount, true);
    }

    /** Record a purchase already delivered: never refused, whatever the limit or status. */
    method CapturePurchase(date: Day, amount: int) returns (r: Result<Entry, CreditError>)
      modifies this`outstanding, this`entries
      ensures r.Ok? && Posted(old(Snapshot()), date, Purchase, amount, false) == Ok(Snapshot())
    {
      r := Post(date, Purchase, amount, false);
    }

    method ApplyRepayment(date: Day, amount: int) returns (r: Result<Entry, CreditError>)
      modifies this`outstanding, this`entries
      ensures r.Ok? && Posted(old(Snapshot()), date, Repayment, -amount, false) == Ok(Snapshot())
    {
      r := Post(date, Repayment, -amount, false);
    }

    method ApplyRefund(date: Day, amount: int) returns (r: Result<Entry, CreditError>)
      modifies this`outstanding, this`entries
      ensures r.Ok? && Posted(old(Snapshot()), date, Refund, -amount, false) == Ok(Snapshot())
    {
      r := Post(date, Refund, -amount, false);
    }

    method Adjust(date: Day, signedAmount: int) returns (r: Result<Entry, CreditError>)
      modifies this`outstanding, this`entries
      ensures r.Ok? && Posted(old(Snapshot()), date, Adjustment, signedAmount, false) == Ok(Snapshot())
    {
      r := Post(date, Adjustment, signedAmount, false);
    }

    /** The integrity check: add up the ledger and let the sum, raised to zero once, replace the cache. */
    method Reconcile() returns (total: int)
      modifies this`outstanding
      ensures Snapshot() == Reconciled(old(Snapshot())) && total == outstanding
    {
      total := 0;
      for i := 0 to |entries|
        invariant total == LedgerSum(entries[..i])
        invariant outstanding == old(outstanding)
      {
        assert entries[..i + 1][..i] == entries[..i];
        total := total + entries[i].amount;
      }
      assert entries[..|entries|] == entries;
      total := Max(total, 0);
      if total != outstanding {
        outstanding := total;
      }
    }

    /** Nothing stops an admin from setting a limit below what is drawn. */
    method SetCreditLimit(newLimit: int) returns (r: Option<CreditError>)
      modifies this`creditLimit, this`sanctionedLimit, this`creditEnabled
      ensures r.Some? <==> newLimit < 0
      ensures r.None? ==> creditLimit == newLimit && sanctionedLimit == Some(newLimit) && (creditEnabled <==> newLimit > 0)
      ensures r.Some? ==> r.value == InvalidLimit && creditLimit == old(creditLimit)
                          && sanctionedLimit == old(sanctionedLimit) && creditEnabled == old(creditEnabled)
    {
      if newLimit < 0 {
        return Some(InvalidLimit);
      }
      creditLimit := newLimit;
      sanctionedLimit := Some(newLimit);
      creditEnabled := newLimit > 0;
      return None;
    }
  }

  function Reconciled(b: Book): Book {
    b.(outstanding := AtLeastZero(LedgerSum(b.entries)))
  }

  /** What one posting puts on record: the entry as asked for, with the balance it leaves; the limit stays. */
  lemma PostingIsExact(b: Book, date: Day, kind: EntryType, amount: int, enforceLimit: bool)
    ensures var raw := b.outstanding + amount;
            match Posted(b, date, kind, amount, enforceLimit)
            case Err(e) => e == ExceedsAvailable && enforceLimit && raw > b.limit
            case Ok(next) =>
              var balance := if raw < 0 then 0 else raw;
              (!enforceLimit || raw <= b.limit) && next == Book(b.limit, balance, b.entries + [Entry(date, kind, amount, balance)])
  {
  }

  /* ---- The cached balance against the ledger ---- */

  function LastBalance(entries: seq<Entry>): int {
    if entries == [] then 0 else entries[|entries| - 1].balanceAfter
  }

  /** Every stored balance is the previous one plus the amount, raised to zero. */
  predicate Chained(entries: seq<Entry>) {
    entries == []
    || var before, last := entries[..|entries| - 1], entries[|entries| - 1];
       Chained(before) && last.balanceAfter == AtLeastZero(LastBalance(before) + last.amount)
  }

  /** A book whose cache is the last stored balance: what postings alone produce. */
  predicate Faithful(b: Book) {
    Chained(b.entries) && b.outstanding == LastBalance(b.entries)
  }

  lemma PostKeepsFaithful(b: Book, date: Day, kind: EntryType, amount: int, enforceLimit: bool)
    requires Faithful(b)
    requires Posted(b, date, kind, amount, enforceLimit).Ok?
    ensures Faithful(Posted(b, date, kind, amount, enforceLimit).value)
    ensures b.entries <= Posted(b, date, kind, amount, enforceLimit).value.entries
  {
    var next := Posted(b, date, kind, amount, enforceLimit).value.entries;
    assert next[..|next| - 1] == b.entries;
  }

  /** Each stored balance is the finest clamped walk over the amounts up to it. */
  lemma {:induction false} LastBalanceIsFineWalk(entries: seq<Entry>)
    requires Chained(entries)
    ensures var s := Amounts(entries);
            LastBalance(entries) == Balance(s, EveryStep(|s|)) == Sum(s) - Low(s, EveryStep(|s|))
  {
    var s := Amounts(entries);
    ClosedForm(s, EveryStep(|s|));
    if entries != [] {
      var before := entries[..|entries| - 1];
      LastBalanceIsFineWalk(before);
      assert s[..|s| - 1] == Amounts(before);
      CutsBeyondEnd(Amounts(before), EveryStep(|s|), EveryStep(|before|));
    }
  }

  /* ---- Runs that mix postings and integrity checks ---- */

  datatype LedgerStep =
    | PostStep(date: Day, kind: EntryType, amount: int, enforceLimit: bool)
    | ReconcileStep

  function Step(b: Book, step: LedgerStep): Book {
    match step
    case PostStep(date, kind, amount, enforceLimit) =>
      (match Posted(b, date, kind, amount, enforceLimit)
       case Ok(next) => next
       case Err(_) => b)
    case ReconcileStep => Reconciled(b)
  }

  function Run(b: Book, steps: seq<LedgerStep>): Book {
    if steps == [] then b else Step(Run(b, steps[..|steps| - 1]), steps[|steps| - 1])
  }

  /** The cache lies between the two extreme clampings of the ledger it caches. */
  predicate InBand(b: Book) {
    var s := Amounts(b.entries);
    AtLeastZero(Sum(s)) <= b.outstanding <= Balance(s, EveryStep(|s|))
  }

  lemma StepKeepsBand(b: Book, step: LedgerStep)
    requires InBand(b)
    ensures InBand(Step(b, step))
  {
    var s, next := Amounts(b.entries), Step(b, step);
    if next.entries == b.entries {
      SingleCut(s);
      MoreCutsHigherBalance(s, {|s|}, EveryStep(|s|));
    } else {
      var t := Amounts(next.entries);
      assert next.entries[..|b.entries|] == b.entries;
      assert t[..|s|] == s;
      CutsBeyondEnd(s, EveryStep(|t|), EveryStep(|s|));
    }
  }

  /**
   Over every run of postings, refusals and integrity checks, in any order, the cached
   balance stays between the raw sum raised once and the sum raised at every entry.
   */
  lemma {:induction false} CacheStaysInBand(limit: int, steps: seq<LedgerStep>)
    ensures InBand(Run(Book(limit, 0, []), steps))
  {
    if steps != [] {
      hide InBand;
      CacheStaysInBand(limit, steps[..|steps| - 1]);
      StepKeepsBand(Run(Book(limit, 0, []), steps[..|steps| - 1]), steps[|steps| - 1]);
    }
  }

  /** The balance an integrity check at the r-th entry and the postings after it leave. */
  function BalanceSince(entries: seq<Entry>, r: nat): int {
    if |entries| <= r then AtLeastZero(LedgerSum(entries)) else LastBalance(entries)
  }

  /** Since the r-th entry, each stored balance is the previous one plus the amount, raised to zero. */
  predicate ChainedSince(entries: seq<Entry>, r: nat) {
    |entries| <= r
    || var before, last := entries[..|entries| - 1], entries[|entries| - 1];
       ChainedSince(before, r) && last.balanceAfter == AtLeastZero(BalanceSince(before, r) + last.amount)
  }

  /** The positions from r to n: clamp once at r, then after every amount. */
  function StepsSince(r: nat, n: nat): set<nat> {
    set k | k in EveryStep(n) && r <= k
  }

  /** A stored balance is the walk clamped at the latest integrity check and at every step since. */
  lemma {:induction false} BalanceSinceIsWalk(entries: seq<Entry>, r: nat)
    requires ChainedSince(entries, r) && r <= |entries|
    ensures BalanceSince(entries, r) == Balance(Amounts(entries), StepsSince(r, |entries|))
  {
    var s := Amounts(entries);
    if |entries| == r {
      CutsBeyondEnd(s, {|s|}, StepsSince(r, r));
      SingleCut(s);
    } else {
      var before := entries[..|entries| - 1];
      BalanceSinceIsWalk(before, r);
      assert s[..|s| - 1] == Amounts(before);
      CutsBeyondEnd(Amounts(before), StepsSince(r, |s|), StepsSince(r, |before|));
    }
  }

  /** Every stored balance goes back to one integrity check before it, or to the opening of the ledger. */
  ghost predicate Recorded(entries: seq<Entry>, n: nat)
    requires n <= |entries|
  {
    exists r: nat :: r < n && ChainedSince(entries[..n], r)
  }

  /** A book whose cache is what an integrity check at its r-th entry and the postings since have left. */
  predicate CachedSince(b: Book, r: nat) {
    r <= |b.entries| && ChainedSince(b.entries, r) && b.outstanding == BalanceSince(b.entries, r)
  }

  /** Where the ledger stood at the latest integrity check of a run, or at its opening. */
  function LatestCheck(limit: int, steps: seq<LedgerStep>): nat {
    if steps == [] then 0
    else if steps[|steps| - 1].ReconcileStep? then |Run(Book(limit, 0, []), steps).entries|
    else LatestCheck(limit, steps[..|steps| - 1])
  }

  lemma PostKeepsCached(b: Book, r: nat, step: LedgerStep)
    requires CachedSince(b, r) && step.PostStep?
    ensures CachedSince(Step(b, step), r)
    ensures Step(b, step).entries != b.entries ==> Recorded(Step(b, step).entries, |Step(b, step).entries|)
  {
    hide LedgerSum;
    var next := Step(b, step);
    if next.entries != b.entries {
      assert next.entries[..|b.entries|] == b.entries && next.entries[..|next.entries|] == next.entries;
      assert ChainedSince(next.entries, r);
    }
  }

  /** In every run of postings and integrity checks, every stored balance goes back to the latest check before it. */
  lemma {:induction false} RunIsRecorded(limit: int, steps: seq<LedgerStep>)
    ensures var b := Run(Book(limit, 0, []), steps);
            CachedSince(b, LatestCheck(limit, steps)) && forall n: nat | 0 < n <= |b.entries| :: Recorded(b.entries, n)
  {
    if steps != [] {
      var before, last := Run(Book(limit, 0, []), steps[..|steps| - 1]), steps[|steps| - 1];
      var b := Step(before, last);
      RunIsRecorded(limit, steps[..|steps| - 1]);
      if last.PostStep? {
        hide CachedSince, Posted;
        PostKeepsCached(before, LatestCheck(limit, steps[..|steps| - 1]), last);
        forall n: nat | 0 < n <= |b.entries|
          ensures Recorded(b.entries, n)
        {
          if n <= |before.entries| {
            StepOnlyAppends(before, last);
            assert b.entries[..n] == before.entries[..n];
            assert Recorded(before.entries, n);
          }
        }
      }
    }
  }

  lemma StepOnlyAppends(b: Book, step: LedgerStep)
    ensures b.entries <= Step(b, step).entries
    ensures |Step(b, step).entries| <= |b.entries| + 1
  {
  }

  /* ---- The cache against the sum ---- */

  lemma {:induction false} NoCheckSinceOpening(limit: int, steps: seq<LedgerStep>)
    requires forall step | step in steps :: step.PostStep?
    ensures LatestCheck(limit, steps) == 0
  {
    if steps != [] {
      assert steps[|steps| - 1] in steps;
      NoCheckSinceOpening(limit, steps[..|steps| - 1]);
    }
  }

  lemma CachedClosedForm(b: Book, r: nat)
    requires CachedSince(b, r)
    ensures var s := Amounts(b.entries); b.outstanding == Sum(s) - Low(s, StepsSince(r, |s|))
  {
    BalanceSinceIsWalk(b.entries, r);
    ClosedForm(Amounts(b.entries), StepsSince(r, |b.entries|));
  }

  /**
   Closed form of the cache after any run: the ledger total minus its low-water mark since the
   latest integrity check, and since the opening when there was none.
   */
  lemma OutstandingClosedForm(limit: int, steps: seq<LedgerStep>)
    ensures var b, r := Run(Book(limit, 0, []), steps), LatestCheck(limit, steps);
            var s := Amounts(b.entries);
            && b.outstanding == Sum(s) - Low(s, StepsSince(r, |s|))
            && ((forall step | step in steps :: step.PostStep?) ==> b.outstanding == Sum(s) - Low(s, EveryStep(|s|)))
  {
    hide Run, LatestCheck, CachedSince, Balance;
    RunIsRecorded(limit, steps);
    var b := Run(Book(limit, 0, []), steps);
    var s := Amounts(b.entries);
    CachedClosedForm(b, LatestCheck(limit, steps));
    if forall step | step in steps :: step.PostStep? {
      NoCheckSinceOpening(limit, steps);
      CutsBeyondEnd(s, StepsSince(0, |s|), EveryStep(|s|));
    }
  }

  /** The low-water mark since r is at most a bound exactly when every prefix from r on is at least it. */
  lemma LowSinceIff(s: seq<int>, r: nat, bound: int)
    requires r <= |s| && bound <= 0
    ensures bound <= Low(s, StepsSince(r, |s|)) <==> forall k: nat | r <= k <= |s| :: bound <= Sum(s[..k])
  {
    var cuts := StepsSince(r, |s|);
    LowIsMinimum(s, cuts);
    if bound <= Low(s, cuts) {
      forall k: nat | r <= k <= |s|
        ensures bound <= Sum(s[..k])
      {
        assert k == 0 ==> s[..k] == [];
        assert k != 0 ==> k in cuts;
      }
    }
  }

  lemma LowAtMostEnd(s: seq<int>, r: nat)
    requires r <= |s|
    ensures Low(s, StepsSince(r, |s|)) <= Min(0, Sum(s))
  {
    LowIsMinimum(s, StepsSince(r, |s|));
    assert s[..|s|] == s;
    assert s != [] ==> |s| in StepsSince(r, |s|);
  }

  lemma ReconcileCached(b: Book, r: nat)
    requires CachedSince(b, r)
    ensures Reconciled(b).outstanding <= b.outstanding
    ensures var s := Amounts(b.entries);
            Reconciled(b) == b <==> forall k: nat | r <= k <= |s| :: Min(0, Sum(s)) <= Sum(s[..k])
  {
    hide CachedSince, Low, StepsSince;
    var s := Amounts(b.entries);
    CachedFits(b, r);
    CachedClosedForm(b, r);
    LowAtMostEnd(s, r);
    LowSinceIff(s, r, Min(0, Sum(s)));
  }

  lemma CachedFits(b: Book, r: nat)
    requires CachedSince(b, r)
    ensures r <= |b.entries|
  {
  }

  /**
   After any run the integrity check never raises the balance, and leaves it alone exactly when,
   since the check before it, the ledger was never lower than where it ends, or than zero.
   */
  lemma ReconcileNeverRaises(limit: int, steps: seq<LedgerStep>)
    ensures var b, r := Run(Book(limit, 0, []), steps), LatestCheck(limit, steps);
            var s := Amounts(b.entries);
            && Reconciled(b).outstanding <= b.outstanding
            && (Reconciled(b) == b <==> forall k: nat | r <= k <= |s| :: Min(0, Sum(s)) <= Sum(s[..k]))
  {
    hide Run, LatestCheck, CachedSince;
    RunIsRecorded(limit, steps);
    ReconcileCached(Run(Book(limit, 0, []), steps), LatestCheck(limit, steps));
  }

  lemma SumIsCachedIff(b: Book, r: nat)
    requires CachedSince(b, r)
    ensures LedgerSum(b.entries) == b.outstanding
       <==> forall k: nat | r <= k <= |b.entries| :: LedgerSum(b.entries[..k]) >= 0
  {
    hide CachedSince, Low, StepsSince, Sum;
    var s := Amounts(b.entries);
    CachedFits(b, r);
    CachedClosedForm(b, r);
    LowIsMinimum(s, StepsSince(r, |s|));
    LowSinceIff(s, r, 0);
    forall k: nat | k <= |b.entries|
      ensures s[..k] == Amounts(b.entries[..k])
    {
      assert b.entries == b.entries[..k] + b.entries[k..];
      AmountsAppend(b.entries[..k], b.entries[k..]);
    }
  }

  /** After any run, SUM(amount) is the balance exactly when the ledger was nowhere negative since the latest integrity check. */
  lemma SumIsOutstandingIff(limit: int, steps: seq<LedgerStep>)
    ensures var b, r := Run(Book(limit, 0, []), steps), LatestCheck(limit, steps);
            LedgerSum(b.entries) == b.outstanding
            <==> forall k: nat | r <= k <= |b.entries| :: LedgerSum(b.entries[..k]) >= 0
  {
    hide Run, LatestCheck, CachedSince;
    RunIsRecorded(limit, steps);
    SumIsCachedIff(Run(Book(limit, 0, []), steps), LatestCheck(limit, steps));
  }

  lemma {:induction false} ChainedIsSinceOpening(entries: seq<Entry>)
    requires Chained(entries)
    ensures CachedSince(Book(0, LastBalance(entries), entries), 0)
  {
    if entries != [] {
      hide LedgerSum;
      ChainedIsSinceOpening(entries[..|entries| - 1]);
    }
  }

  lemma RunThen(b: Book, steps: seq<LedgerStep>, last: LedgerStep)
    ensures Run(b, steps + [last]) == Step(Run(b, steps), last)
  {
    assert (steps + [last])[..|steps|] == steps;
  }

  /** One overpayment is enough: the sum goes to -150 while 50 is owed, and reconciling would drop it. */
  lemma OverpaymentBreaksTheSum(limit: int)
    requires limit >= 100
    ensures var b := Run(Book(limit, 0, []), [
                           PostStep(1, Purchase, 100, true),
                           PostStep(2, Repayment, -300, false),
                           PostStep(3, Purchase, 50, true)
                         ]);
            b.outstanding == 50 && LedgerSum(b.entries) == -150 && Reconciled(b).outstanding == 0
  {
    var p, q, r := PostStep(1, Purchase, 100, true), PostStep(2, Repayment, -300, false), PostStep(3, Purchase, 50, true);
    var none: seq<LedgerStep> := [];
    var start := Book(limit, 0, []);
    RunThen(start, none, p);
    RunThen(start, [p], q);
    RunThen(start, [p, q], r);
    assert none + [p] == [p] && [p] + [q] == [p, q] && [p, q] + [r] == [p, q, r];
    var e, f, g := Entry(1, Purchase, 100, 100), Entry(2, Repayment, -300, 0), Entry(3, Purchase, 50, 50);
    assert Run(start, [p]) == Book(limit, 100, [e]);
    assert Run(start, [p, q]) == Book(limit, 0, [e, f]);
    assert Run(start, [p, q, r]) == Book(limit, 50, [e, f, g]);
    assert [e, f, g][..2] == [e, f] && [e, f][..1] == [e];
    assert Amounts([e]) == [100] && Amounts([e, f]) == [100, -300] && Amounts([e, f, g]) == [100, -300, 50];
    assert [100, -300, 50][..2] == [100, -300] && [100, -300][..1] == [100];
    assert Sum([100]) == 100 && Sum([100, -300]) == -200;
  }
}
