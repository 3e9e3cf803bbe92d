/**
 The statements against the ledger they are cut from: chaining, coverage, and how clamping
 once per window compares with clamping at every entry and clamping once at the end.
 */
module BillingClamps {
  import opened Common
  import opened Calendar
  import opened ClampedWalk
  import opened CreditLedger
  import opened Billing
  import opened BillingSchedule

  /* ---- Chaining ---- */

  /** Openings and closings join up across skipped windows, from the balance at the cursor on. */
  lemma {:induction false} BillChains(entries: seq<Entry>, cycle: Cycle, cursor: Day, opening: int, today: Day)
    requires opening >= 0
    ensures var bills := Bill(entries, cycle, cursor, opening, today);
            && (bills != [] ==> bills[0].opening == opening)
            && (forall i | 0 < i < |bills| :: bills[i].opening == bills[i - 1].closing)
            && (forall s | s in bills :: s.closing >= 0)
    decreases today - cursor
  {
    hide Calendar.WindowAfter, Made, Carried, Bill;
    var w := WindowAfter(cycle, cursor);
    if w.end < today {
      BillVisit(entries, cycle, cursor, opening, today);
      MadeShape(entries, cycle, cursor, opening);
      BillChains(entries, cycle, w.end + 1, Carried(entries, cycle, cursor, opening), today);
    } else {
      BillDone(entries, cycle, cursor, opening, today);
    }
  }

  /** The sum of every amount dated inside a window, whatever its type. */
  function WindowTotal(entries: seq<Entry>, w: Window): int {
    if entries == [] then 0
    else
      var last := entries[|entries| - 1];
      WindowTotal(entries[..|entries| - 1], w) + if w.Contains(last.date) then last.amount else 0
  }

  lemma SumsStep(entries: seq<Entry>, w: Window)
    ensures if entries == [] then SumsIn(entries, w) == Sums(0, 0, 0, 0, 0)
            else
              var last := entries[|entries| - 1];
              var before := SumsIn(entries[..|entries| - 1], w);
              SumsIn(entries, w) == if w.Contains(last.date) then before.Add(last.kind, last.amount) else before
  {
    hide Sums.Add;
  }

  lemma AddTotal(s: Sums, kind: EntryType, amount: int)
    ensures s.Add(kind, amount).Total() == s.Total() + amount
  {
  }

  lemma {:induction false} SumsTotal(entries: seq<Entry>, w: Window)
    ensures SumsIn(entries, w).Total() == WindowTotal(entries, w)
  {
    hide SumsIn, Sums.Add;
    SumsStep(entries, w);
    if entries != [] {
      var last := entries[|entries| - 1];
      SumsTotal(entries[..|entries| - 1], w);
      AddTotal(SumsIn(entries[..|entries| - 1], w), last.kind, last.amount);
    }
  }

  /** The total of one entry type inside a window. */
  function TypeTotal(entries: seq<Entry>, w: Window, kind: EntryType): int {
    if entries == [] then 0
    else
      var last := entries[|entries| - 1];
      TypeTotal(entries[..|entries| - 1], w, kind) + if w.Contains(last.date) && last.kind == kind then last.amount else 0
  }

  lemma {:induction false} SumsAreTypeTotals(entries: seq<Entry>, w: Window)
    ensures SumsIn(entries, w) == Sums(TypeTotal(entries, w, Purchase), TypeTotal(entries, w, Repayment), TypeTotal(entries, w, Fee),
                                       TypeTotal(entries, w, Adjustment), TypeTotal(entries, w, Refund))
  {
    hide SumsIn;
    SumsStep(entries, w);
    if entries != [] {
      SumsAreTypeTotals(entries[..|entries| - 1], w);
    }
  }

  /** What the columns of a statement report, and when it is due. */
  predicate Reports(s: Statement, entries: seq<Entry>, cycle: Cycle) {
    var w := Window(s.start, s.end);
    && s.purchases == TypeTotal(entries, w, Purchase)
    && s.payments == -(TypeTotal(entries, w, Repayment) + TypeTotal(entries, w, Refund))
    && s.fees == TypeTotal(entries, w, Fee)
    && s.dueDate == s.end + (if cycle == Weekly then 5 else 10)
    && s.status == if s.closing == 0 then Paid else Open
  }

  lemma MadeReports(entries: seq<Entry>, cycle: Cycle, cursor: Day, opening: int)
    ensures forall s | s in Made(entries, cycle, cursor, opening) :: Reports(s, entries, cycle)
  {
    hide Calendar.WindowAfter, SumsIn, TypeTotal;
    SumsAreTypeTotals(entries, WindowAfter(cycle, cursor));
  }

  lemma {:induction false} StatementsReportTheirWindows(entries: seq<Entry>, cycle: Cycle, cursor: Day, opening: int, today: Day)
    ensures forall s | s in Bill(entries, cycle, cursor, opening, today) :: Reports(s, entries, cycle)
    decreases today - cursor
  {
    hide Calendar.WindowAfter, Made, Carried, Bill, Reports;
    var w := WindowAfter(cycle, cursor);
    if w.end < today {
      BillVisit(entries, cycle, cursor, opening, today);
      MadeReports(entries, cycle, cursor, opening);
      StatementsReportTheirWindows(entries, cycle, w.end + 1, Carried(entries, cycle, cursor, opening), today);
    } else {
      BillDone(entries, cycle, cursor, opening, today);
    }
  }

  lemma CarriedIsTotal(entries: seq<Entry>, cycle: Cycle, cursor: Day, opening: int)
    ensures Carried(entries, cycle, cursor, opening) == AtLeastZero(opening + WindowTotal(entries, WindowAfter(cycle, cursor)))
  {
    hide Calendar.WindowAfter, SumsIn;
    SumsTotal(entries, WindowAfter(cycle, cursor));
  }

  /** Each statement closes at its opening plus everything in its own window, raised to zero. */
  lemma {:induction false} StatementRollsUp(entries: seq<Entry>, cycle: Cycle, cursor: Day, opening: int, today: Day)
    ensures forall s | s in Bill(entries, cycle, cursor, opening, today) ::
              && Window(s.start, s.end) == WindowAfter(cycle, s.end)
              && s.closing == AtLeastZero(s.opening + WindowTotal(entries, Window(s.start, s.end)))
    decreases today - cursor
  {
    hide Calendar.WindowAfter, Made, Carried, Bill, WindowTotal;
    var w := WindowAfter(cycle, cursor);
    if w.end < today {
      BillVisit(entries, cycle, cursor, opening, today);
      MadeShape(entries, cycle, cursor, opening);
      CarriedIsTotal(entries, cycle, cursor, opening);
      WindowOfMember(cycle, cursor, w.end);
      StatementRollsUp(entries, cycle, w.end + 1, Carried(entries, cycle, cursor, opening), today);
    } else {
      BillDone(entries, cycle, cursor, opening, today);
    }
  }

  /* ---- Coverage ---- */

  /** The windows a walk visits, skipped ones included. */
  function Visited(cycle: Cycle, cursor: Day, today: Day): seq<Window>
    decreases today - cursor
  {
    WindowOfMember(cycle, cursor, cursor);
    var w := WindowAfter(cycle, cursor);
    if w.end >= today then [] else [w] + Visited(cycle, w.end + 1, today)
  }

  /** From the cursor on, a day is in some visited window exactly when its own window is over. */
  lemma {:induction false} VisitedCover(cycle: Cycle, cursor: Day, today: Day, d: Day)
    requires cursor <= d
    ensures (exists w :: w in Visited(cycle, cursor, today) && w.Contains(d)) <==> WindowAfter(cycle, d).end < today
    decreases today - cursor
  {
    hide Calendar.WindowAfter;
    var visited := Visited(cycle, cursor, today);
    var w := WindowAfter(cycle, cursor);
    WindowOfMember(cycle, cursor, d);
    WindowOfMember(cycle, cursor, cursor);
    WindowOfMember(cycle, d, d);
    if w.end < today {
      var rest := Visited(cycle, w.end + 1, today);
      assert visited == [w] + rest;
      if w.Contains(d) {
        assert w in visited;
      } else {
        VisitedCover(cycle, w.end + 1, today, d);
        assert forall v :: v in visited <==> v == w || v in rest;
      }
    }
  }

  /** No two visited windows overlap: they follow each other in the calendar. */
  lemma {:induction false} VisitedInOrder(cycle: Cycle, cursor: Day, today: Day)
    ensures var visited := Visited(cycle, cursor, today);
            && (forall w | w in visited :: WindowAfter(cycle, cursor).start <= w.start <= w.end < today)
            && (forall i | 0 < i < |visited| :: visited[i - 1].end + 1 == visited[i].start)
            && (visited != [] ==> visited[0] == WindowAfter(cycle, cursor))
    decreases today - cursor
  {
    hide Calendar.WindowAfter;
    var w := WindowAfter(cycle, cursor);
    WindowOfMember(cycle, cursor, cursor);
    if w.end < today {
      NextWindowStarts(cycle, cursor);
      VisitedInOrder(cycle, w.end + 1, today);
      assert Visited(cycle, cursor, today) == [w] + Visited(cycle, w.end + 1, today);
    }
  }

  /* ---- Three clampings of one ledger ---- */

  /** How many entries are dated on or before a day. In a sorted ledger they come first. */
  function CountUpTo(entries: seq<Entry>, d: int): (n: nat)
    ensures n <= |entries|
    ensures n > 0 ==> entries[n - 1].date <= d
  {
    if entries == [] then 0
    else if entries[|entries| - 1].date <= d then |entries|
    else CountUpTo(entries[..|entries| - 1], d)
  }

  lemma {:induction false} CountUpToSplits(entries: seq<Entry>, d: int)
    requires DatesSorted(entries)
    ensures forall i | 0 <= i < |entries| :: i < CountUpTo(entries, d) <==> entries[i].date <= d
  {
    if entries != [] && entries[|entries| - 1].date > d {
      var before := entries[..|entries| - 1];
      CountUpToSplits(before, d);
      assert forall i | 0 <= i < |before| :: before[i] == entries[i];
    }
  }

  function SumUpTo(entries: seq<Entry>, d: int): int {
    LedgerSum(entries[..CountUpTo(entries, d)])
  }

  lemma {:induction false} WindowTotalIsDifference(entries: seq<Entry>, w: Window)
    requires DatesSorted(entries) && w.start <= w.end
    ensures WindowTotal(entries, w) == SumUpTo(entries, w.end) - SumUpTo(entries, w.start - 1)
  {
    if entries != [] {
      var before := entries[..|entries| - 1];
      var last := entries[|entries| - 1];
      WindowTotalIsDifference(before, w);
      SumUpToStep(entries, w.end);
      SumUpToStep(entries, w.start - 1);
    }
  }

  lemma SumUpToStep(entries: seq<Entry>, d: int)
    requires DatesSorted(entries) && entries != []
    ensures var before, last := entries[..|entries| - 1], entries[|entries| - 1];
            DatesSorted(before)
            && SumUpTo(entries, d) == SumUpTo(before, d) + if last.date <= d then last.amount else 0
  {
    var before, last := entries[..|entries| - 1], entries[|entries| - 1];
    if last.date <= d {
      CountUpToSplits(entries, d);
      CountUpToSplits(before, d);
      assert forall i | 0 <= i < |before| :: before[i] == entries[i];
      assert before != [] ==> before[|before| - 1].date <= d;
      assert CountUpTo(before, d) == |before|;
      assert before[..|before|] == before && entries[..|entries|] == entries;
    } else {
      var n := CountUpTo(before, d);
      assert entries[..n] == before[..n];
    }
  }

  /** The window boundaries of a ledger: k when the k-th entry is the last one of its window. */
  function WindowCuts(entries: seq<Entry>, cycle: Cycle): set<nat> {
    set k: nat | 1 <= k < |entries| + 1 && EndsWindow(entries, cycle, k)
  }

  predicate EndsWindow(entries: seq<Entry>, cycle: Cycle, k: nat)
    requires 1 <= k <= |entries|
  {
    k == |entries| || WindowAfter(cycle, entries[k - 1].date) != WindowAfter(cycle, entries[k].date)
  }

  /** The ledger up to and including a day, walked with one clamp per window. */
  function CoarseBalance(entries: seq<Entry>, cycle: Cycle, d: int): int {
    Balance(Amounts(entries[..CountUpTo(entries, d)]), WindowCuts(entries, cycle))
  }

  lemma AmountsPrefix(entries: seq<Entry>, k: nat, n: nat)
    requires k <= n <= |entries|
    ensures Amounts(entries[..n])[..k] == Amounts(entries[..k])
  {
    assert entries[..n] == entries[..k] + entries[k..n];
    AmountsAppend(entries[..k], entries[k..n]);
  }

  /** The entries dated before a window starts end a window themselves. */
  lemma BoundaryIsCut(entries: seq<Entry>, cycle: Cycle, start: Day)
    requires DatesSorted(entries) && WindowAfter(cycle, start).start == start
    ensures var n := CountUpTo(entries, start - 1); n > 0 ==> n in WindowCuts(entries, cycle)
  {
    hide Calendar.WindowAfter;
    var n := CountUpTo(entries, start - 1);
    CountUpToSplits(entries, start - 1);
    if 0 < n < |entries| {
      WindowOfMember(cycle, entries[n - 1].date, start);
      WindowOfMember(cycle, entries[n].date, start);
      WindowOfMember(cycle, entries[n].date, entries[n].date);
      WindowOfMember(cycle, entries[n - 1].date, entries[n - 1].date);
    }
  }

  /** Inside one window there is no boundary. */
  lemma NoCutInside(entries: seq<Entry>, cycle: Cycle, day: Day, k: nat)
    requires DatesSorted(entries)
    requires var w := WindowAfter(cycle, day); CountUpTo(entries, w.start - 1) < k < CountUpTo(entries, w.end)
    ensures k !in WindowCuts(entries, cycle)
  {
    hide Calendar.WindowAfter;
    var w := WindowAfter(cycle, day);
    CountUpToSplits(entries, w.start - 1);
    CountUpToSplits(entries, w.end);
    assert entries[k - 1].date >= w.start && entries[k].date >= w.start;
    WindowOfMember(cycle, day, entries[k - 1].date);
    WindowOfMember(cycle, day, entries[k].date);
  }

  lemma {:induction false} CountUpToMonotone(entries: seq<Entry>, d: int, e: int)
    requires d <= e
    ensures CountUpTo(entries, d) <= CountUpTo(entries, e)
  {
    if entries != [] {
      CountUpToMonotone(entries[..|entries| - 1], d, e);
    }
  }

  lemma CoarseNonNegative(entries: seq<Entry>, cycle: Cycle, start: Day)
    requires DatesSorted(entries) && WindowAfter(cycle, start).start == start
    ensures CoarseBalance(entries, cycle, start - 1) >= 0
  {
    hide Calendar.WindowAfter;
    BoundaryIsCut(entries, cycle, start);
  }

  /** Over one window, the once-per-window walk moves by the window's total and clamps once. */
  lemma CoarseStep(entries: seq<Entry>, cycle: Cycle, day: Day)
    requires DatesSorted(entries)
    ensures var w := WindowAfter(cycle, day);
            CoarseBalance(entries, cycle, w.end)
            == AtLeastZero(CoarseBalance(entries, cycle, w.start - 1) + WindowTotal(entries, w))
  {
    hide Calendar.WindowAfter, WindowTotal, WindowCuts, CountUpTo, Balance, Sum, Amounts, DatesSorted;
    var w := WindowAfter(cycle, day);
    WindowOfMember(cycle, day, day);
    WindowOfMember(cycle, day, w.start);
    NextWindowStarts(cycle, day);
    WindowTotalIsDifference(entries, w);
    var n, m := CountUpTo(entries, w.start - 1), CountUpTo(entries, w.end);
    CountUpToMonotone(entries, w.start - 1, w.end);
    CoarseNonNegative(entries, cycle, w.start);
    if n < m {
      var s := Amounts(entries[..m]);
      var cuts := WindowCuts(entries, cycle);
      AmountsPrefix(entries, n, m);
      BoundaryIsCut(entries, cycle, w.end + 1);
      forall k: nat | n < k < m
        ensures k !in cuts
      {
        NoCutInside(entries, cycle, day, k);
      }
      OneCutStretch(s, n, cuts);
    }
  }

  /** Statement balances are the ledger walked with one clamp per window, wherever the cron started. */
  lemma {:induction false} ClosingIsCoarse(entries: seq<Entry>, cycle: Cycle, cursor: Day, opening: int, today: Day)
    requires DatesSorted(entries)
    requires opening == CoarseBalance(entries, cycle, WindowAfter(cycle, cursor).start - 1)
    ensures forall s | s in Bill(entries, cycle, cursor, opening, today) ::
              && s.opening == CoarseBalance(entries, cycle, s.start - 1)
              && s.closing == CoarseBalance(entries, cycle, s.end)
    decreases today - cursor
  {
    hide Calendar.WindowAfter, Made, Carried, Bill, CoarseBalance, WindowTotal;
    var w := WindowAfter(cycle, cursor);
    if w.end < today {
      BillVisit(entries, cycle, cursor, opening, today);
      MadeShape(entries, cycle, cursor, opening);
      CarriedIsTotal(entries, cycle, cursor, opening);
      CoarseStep(entries, cycle, cursor);
      NextWindowStarts(cycle, cursor);
      ClosingIsCoarse(entries, cycle, w.end + 1, Carried(entries, cycle, cursor, opening), today);
    } else {
      BillDone(entries, cycle, cursor, opening, today);
    }
  }

  /** A window is worth a statement when something was owed at its start or some type moved in it. */
  predicate WorthBilling(entries: seq<Entry>, cycle: Cycle, w: Window) {
    || CoarseBalance(entries, cycle, w.start - 1) > 0
    || TypeTotal(entries, w, Purchase) != 0 || TypeTotal(entries, w, Repayment) != 0 || TypeTotal(entries, w, Fee) != 0
    || TypeTotal(entries, w, Adjustment) != 0 || TypeTotal(entries, w, Refund) != 0
  }

  lemma MadeIffWorthBilling(entries: seq<Entry>, cycle: Cycle, cursor: Day, opening: int)
    requires opening == CoarseBalance(entries, cycle, WindowAfter(cycle, cursor).start - 1)
    ensures Made(entries, cycle, cursor, opening) != [] <==> WorthBilling(entries, cycle, WindowAfter(cycle, cursor))
  {
    hide Calendar.WindowAfter, SumsIn, CoarseBalance, StatementFor, TypeTotal;
    SumsAreTypeTotals(entries, WindowAfter(cycle, cursor));
  }

  ghost predicate HasStatement(bills: seq<Statement>, w: Window) {
    exists s :: s in bills && s.start == w.start && s.end == w.end
  }

  /** No window is billed that should be skipped, and none is skipped that should be billed. */
  lemma {:induction false} BilledIffWorthBilling(entries: seq<Entry>, cycle: Cycle, cursor: Day, opening: int, today: Day, w: Window)
    requires DatesSorted(entries)
    requires opening == CoarseBalance(entries, cycle, WindowAfter(cycle, cursor).start - 1)
    requires w in Visited(cycle, cursor, today)
    ensures HasStatement(Bill(entries, cycle, cursor, opening, today), w) <==> WorthBilling(entries, cycle, w)
    decreases today - cursor
  {
    hide Calendar.WindowAfter, Made, Carried, Bill, CoarseBalance, WindowTotal, WorthBilling, DatesSorted;
    var first := WindowAfter(cycle, cursor);
    WindowOfMember(cycle, cursor, cursor);
    NextWindowStarts(cycle, cursor);
    assert Visited(cycle, cursor, today) == [first] + Visited(cycle, first.end + 1, today);
    BillVisit(entries, cycle, cursor, opening, today);
    MadeShape(entries, cycle, cursor, opening);
    MadeIffWorthBilling(entries, cycle, cursor, opening);
    CarriedIsTotal(entries, cycle, cursor, opening);
    CoarseStep(entries, cycle, cursor);
    var made, carried := Made(entries, cycle, cursor, opening), Carried(entries, cycle, cursor, opening);
    var rest := Bill(entries, cycle, first.end + 1, carried, today);
    BillEnds(entries, cycle, first.end + 1, carried, today);
    if w == first {
      assert made != [] ==> made[0] in made + rest;
    } else {
      VisitedInOrder(cycle, first.end + 1, today);
      BilledIffWorthBilling(entries, cycle, first.end + 1, carried, today, w);
      if HasStatement(rest, w) {
        var s :| s in rest && s.start == w.start && s.end == w.end;
        assert s in made + rest;
      }
    }
  }

  /** The first day of the ledger's first window comes before every entry. */
  lemma NothingBefore(entries: seq<Entry>, cycle: Cycle)
    requires DatesSorted(entries) && entries != []
    ensures CoarseBalance(entries, cycle, WindowAfter(cycle, entries[0].date).start - 1) == 0
  {
    hide Calendar.WindowAfter;
    var d := WindowAfter(cycle, entries[0].date).start - 1;
    WindowOfMember(cycle, entries[0].date, entries[0].date);
    CountUpToSplits(entries, d);
    assert CountUpTo(entries, d) == 0;
    assert entries[..0] == [];
  }

  /**
   Three clampings of one ledger. A statement's closing balance lies between what the
   integrity check would have written at its last entry and what that entry recorded; it
   equals the recorded balance exactly when the ledger is nowhere below its lowest window end.
   */
  lemma CoarseUnderApproximatesFine(entries: seq<Entry>, cycle: Cycle, today: Day, s: Statement)
    requires DatesSorted(entries) && s in Full(entries, cycle, today)
    requires Chained(entries[..CountUpTo(entries, s.end)])
    ensures var n := CountUpTo(entries, s.end);
            var amounts := Amounts(entries[..n]);
            && n > 0
            && AtLeastZero(Sum(amounts)) <= s.closing <= entries[n - 1].balanceAfter
            && (s.closing == entries[n - 1].balanceAfter
                <==> forall k: nat | k <= n :: Low(amounts, WindowCuts(entries, cycle)) <= Sum(amounts[..k]))
  {
    hide Calendar.WindowAfter, Bill, WindowCuts, CountUpTo, Low, Balance, Chained;
    ClosingIsWalk(entries, cycle, today, s);
    var n := CountUpTo(entries, s.end);
    var amounts := Amounts(entries[..n]);
    var cuts := WindowCuts(entries, cycle);
    LastBalanceIsFineWalk(entries[..n]);
    CoarserAgreesIff(amounts, cuts);
    MoreCutsHigherBalance(amounts, cuts, EveryStep(n));
  }

  /** A closing balance is the once-per-window walk of the ledger up to it, and never below the sum raised once. */
  lemma ClosingIsWalk(entries: seq<Entry>, cycle: Cycle, today: Day, s: Statement)
    requires DatesSorted(entries) && s in Full(entries, cycle, today)
    ensures var n := CountUpTo(entries, s.end);
            var amounts := Amounts(entries[..n]);
            n > 0 && s.closing == Balance(amounts, WindowCuts(entries, cycle)) >= AtLeastZero(Sum(amounts))
  {
    hide Calendar.WindowAfter, Bill, WindowCuts, CountUpTo, Low, Balance;
    NothingBefore(entries, cycle);
    ClosingIsCoarse(entries, cycle, entries[0].date, 0, today);
    StatementCoversFirst(entries, cycle, today, s);
    LastIsCut(entries, cycle, today, s);
    var amounts := Amounts(entries[..CountUpTo(entries, s.end)]);
    SingleCut(amounts);
    MoreCutsHigherBalance(amounts, {|amounts|}, WindowCuts(entries, cycle));
  }

  /**
   A ledger whose cache was put right by an integrity check has a fourth clamping: at that check
   and at every entry since. A statement then claims no more than the balance recorded at its
   last entry exactly when the ledger, from the latest check on, was as low as at some window end.
   */
  lemma UnderApproximatesIff(entries: seq<Entry>, cycle: Cycle, today: Day, s: Statement, r: nat)
    requires DatesSorted(entries) && s in Full(entries, cycle, today)
    requires r < CountUpTo(entries, s.end) && ChainedSince(entries[..CountUpTo(entries, s.end)], r)
    ensures var n := CountUpTo(entries, s.end);
            var amounts := Amounts(entries[..n]);
            s.closing <= entries[n - 1].balanceAfter
            <==> Low(amounts, StepsSince(r, n)) <= Low(amounts, WindowCuts(entries, cycle))
  {
    hide Calendar.WindowAfter, Full, WindowCuts, CountUpTo, Low, Balance, ChainedSince, StepsSince;
    ClosingIsWalk(entries, cycle, today, s);
    var n := CountUpTo(entries, s.end);
    var amounts := Amounts(entries[..n]);
    BalanceSinceIsWalk(entries[..n], r);
    ClosedForm(amounts, StepsSince(r, n));
    ClosedForm(amounts, WindowCuts(entries, cycle));
  }

  lemma StatementCoversFirst(entries: seq<Entry>, cycle: Cycle, today: Day, s: Statement)
    requires DatesSorted(entries) && s in Full(entries, cycle, today)
    ensures entries[0].date <= s.end && CountUpTo(entries, s.end) > 0
  {
    hide Bill;
    BillEnds(entries, cycle, entries[0].date, 0, today);
    CountUpToSplits(entries, s.end);
  }

  lemma LastIsCut(entries: seq<Entry>, cycle: Cycle, today: Day, s: Statement)
    requires DatesSorted(entries) && s in Full(entries, cycle, today)
    ensures CountUpTo(entries, s.end) in WindowCuts(entries, cycle)
  {
    hide Calendar.WindowAfter, Bill, WindowCuts, WindowTotal;
    StatementCoversFirst(entries, cycle, today, s);
    StatementRollsUp(entries, cycle, entries[0].date, 0, today);
    NextWindowStarts(cycle, s.end);
    BoundaryIsCut(entries, cycle, s.end + 1);
  }

  lemma NeverNegativeBalance(entries: seq<Entry>, n: nat)
    requires 0 < n <= |entries| && Chained(entries[..n])
    requires forall k: nat | k <= n :: LedgerSum(entries[..k]) >= 0
    ensures entries[n - 1].balanceAfter == LedgerSum(entries[..n]) >= 0
  {
    hide LedgerSum, Chained;
    var prefix := entries[..n];
    forall k: nat | k <= n
      ensures LedgerSum(prefix[..k]) >= 0
    {
      assert prefix[..k] == entries[..k];
    }
    ChainedIsSinceOpening(prefix);
    SumIsCachedIff(Book(0, LastBalance(prefix), prefix), 0);
    assert prefix[..n] == prefix;
  }

  /** On a ledger that, up to the statement's end, never went below zero the three clampings are one: the plain sum. */
  lemma NoOverpaymentAllAgree(entries: seq<Entry>, cycle: Cycle, today: Day, s: Statement)
    requires DatesSorted(entries) && s in Full(entries, cycle, today)
    requires Chained(entries[..CountUpTo(entries, s.end)])
    requires forall k: nat | k <= CountUpTo(entries, s.end) :: LedgerSum(entries[..k]) >= 0
    ensures var n := CountUpTo(entries, s.end);
            n > 0 && s.closing == entries[n - 1].balanceAfter == LedgerSum(entries[..n])
  {
    hide Calendar.WindowAfter, Full, WindowCuts, Low, Chained;
    CoarseUnderApproximatesFine(entries, cycle, today, s);
    NeverNegativeBalance(entries, CountUpTo(entries, s.end));
  }

  /* ---- The statements an account actually ends up with ---- */

  lemma OnTrackStatement(h: History, cycle: Cycle, i: nat)
    requires OnTrack(h, cycle) && i < |h.statements|
    ensures var full := Full(h.entries, cycle, h.clock);
            h.entries != [] && |h.statements| <= |full| && Billed(h.statements[i]) == Billed(full[i]) && full[i] in full
  {
    hide Bill;
    assert BilledAll(h.statements)[i] == BilledAll(Full(h.entries, cycle, h.clock))[i];
  }

  /**
   After any schedule of capped runs, postings, ageing and payments: the statements are in
   calendar order and chained, the first opens at zero, and each still rolls up the ledger as
   it is now, so nothing posted since has changed what a closed window recorded.
   */
  lemma AnyScheduleChains(cycle: Cycle, events: seq<Event>)
    requires AllInOrder(NEW_ACCOUNT, cycle, events)
    ensures var h := After(NEW_ACCOUNT, cycle, events);
            && EndsIncrease(h.statements)
            && (forall i | 0 <= i < |h.statements| ::
                  h.statements[i].opening == if i == 0 then 0 else h.statements[i - 1].closing)
            && (forall i | 0 <= i < |h.statements| ::
                  var s := h.statements[i];
                  s.closing == AtLeastZero(s.opening + WindowTotal(h.entries, Window(s.start, s.end))))
  {
    hide Bill, WindowTotal, After, AllInOrder;
    AnyScheduleOnTrack(cycle, events);
    var h := After(NEW_ACCOUNT, cycle, events);
    if h.statements != [] {
      var full := Full(h.entries, cycle, h.clock);
      OnTrackStatement(h, cycle, 0);
      BillChains(h.entries, cycle, h.entries[0].date, 0, h.clock);
      BillEnds(h.entries, cycle, h.entries[0].date, 0, h.clock);
      StatementRollsUp(h.entries, cycle, h.entries[0].date, 0, h.clock);
      forall i | 0 <= i < |h.statements|
        ensures Billed(h.statements[i]) == Billed(full[i]) && full[i] in full
      {
        OnTrackStatement(h, cycle, i);
      }
    }
  }

  lemma {:induction false} InOrderSorted(cycle: Cycle, events: seq<Event>)
    requires AllInOrder(NEW_ACCOUNT, cycle, events)
    ensures DatesSorted(After(NEW_ACCOUNT, cycle, events).entries)
  {
    hide Due, Capped;
    if events != [] {
      InOrderSorted(cycle, events[..|events| - 1]);
    }
  }

  /**
   After any schedule, each statement lies between the sum raised once and the balance recorded
   at its period end; with integrity checks among the postings the lower bound still holds, and
   the upper one exactly when the ledger was as low since the latest check as at a window end.
   */
  lemma AnyScheduleUnderApproximates(cycle: Cycle, events: seq<Event>, i: nat)
    requires AllInOrder(NEW_ACCOUNT, cycle, events)
    requires i < |After(NEW_ACCOUNT, cycle, events).statements|
    ensures var h := After(NEW_ACCOUNT, cycle, events);
            var n := CountUpTo(h.entries, h.statements[i].end);
            var amounts := Amounts(h.entries[..n]);
            && n > 0
            && AtLeastZero(LedgerSum(h.entries[..n])) <= h.statements[i].closing
            && (Chained(h.entries[..n]) ==> h.statements[i].closing <= h.entries[n - 1].balanceAfter)
            && forall r: nat | r < n && ChainedSince(h.entries[..n], r) ::
                 h.statements[i].closing <= h.entries[n - 1].balanceAfter
                 <==> Low(amounts, StepsSince(r, n)) <= Low(amounts, WindowCuts(h.entries, cycle))
  {
    hide Bill, After, AllInOrder, Chained, ChainedSince, StepsSince, Low, WindowCuts;
    var h := After(NEW_ACCOUNT, cycle, events);
    AnyScheduleOnTrack(cycle, events);
    InOrderSorted(cycle, events);
    OnTrackStatement(h, cycle, i);
    var s := Full(h.entries, cycle, h.clock)[i];
    var n := CountUpTo(h.entries, s.end);
    ClosingIsWalk(h.entries, cycle, h.clock, s);
    if Chained(h.entries[..n]) {
      CoarseUnderApproximatesFine(h.entries, cycle, h.clock, s);
    }
    forall r: nat | r < n && ChainedSince(h.entries[..n], r)
      ensures s.closing <= h.entries[n - 1].balanceAfter
              <==> Low(Amounts(h.entries[..n]), StepsSince(r, n)) <= Low(Amounts(h.entries[..n]), WindowCuts(h.entries, cycle))
    {
      UnderApproximatesIff(h.entries, cycle, h.clock, s, r);
    }
  }

  lemma SumsNext(entries: seq<Entry>, x: Entry, w: Window)
    ensures SumsIn(entries + [x], w)
         == if w.Contains(x.date) then SumsIn(entries, w).Add(x.kind, x.amount) else SumsIn(entries, w)
  {
    hide Sums.Add;
    assert (entries + [x])[..|entries|] == entries;
  }

  /**
   Weekly billing. A purchase of 100 is overpaid by 200; the next week 50 is bought, the integrity
   check drops that debt, and 10 more is bought: 10 is recorded as owed, the statement says 60.
   */
  lemma StatementAboveTheRecord(limit: int)
    requires limit >= 100
    ensures var b := Run(Book(limit, 0, []),
                         [PostStep(1, Purchase, 100, true)] + [PostStep(1, Repayment, -300, false)]
                         + [PostStep(8, Purchase, 50, true)] + [ReconcileStep] + [PostStep(8, Purchase, 10, true)]);
            && b.outstanding == 10
            && |Full(b.entries, Weekly, 15)| == 2 && Full(b.entries, Weekly, 15)[1].closing == 60
  {
    hide Sums.Add, SumsIn, Run, Bill, LedgerSum, Calendar.WindowAfter, Made, Carried;
    FirstWeeks();
    var e1, e2 := Entry(1, Purchase, 100, 100), Entry(1, Repayment, -300, 0);
    var e3, e4 := Entry(8, Purchase, 50, 50), Entry(8, Purchase, 10, 10);
    RunOfTheRecord(limit, e1, e2, e3, e4);
    var entries := [e1] + [e2] + [e3] + [e4];
    var w1, w2 := Window(1, 7), Window(8, 14);
    SumsOfTheRecord(e1, e2, e3, e4);
    BillVisit(entries, Weekly, 1, 0, 15);
    BillVisit(entries, Weekly, 8, 0, 15);
    MadeWrittenOut(entries, Weekly, 1, 0);
    MadeWrittenOut(entries, Weekly, 8, 0);
    BillDone(entries, Weekly, 15, 60, 15);
    assert entries[0] == e1;
  }

  lemma FirstWeeks()
    ensures WindowAfter(Weekly, 1) == Window(1, 7) && WindowAfter(Weekly, 8) == Window(8, 14)
    ensures WindowAfter(Weekly, 15) == Window(15, 21)
  {
    hide MonthOf;
  }

  lemma SumsOfTheRecord(e1: Entry, e2: Entry, e3: Entry, e4: Entry)
    requires e1 == Entry(1, Purchase, 100, 100) && e2 == Entry(1, Repayment, -300, 0)
    requires e3 == Entry(8, Purchase, 50, 50) && e4 == Entry(8, Purchase, 10, 10)
    ensures SumsIn([e1] + [e2] + [e3] + [e4], Window(1, 7)) == Sums(100, -300, 0, 0, 0)
    ensures SumsIn([e1] + [e2] + [e3] + [e4], Window(8, 14)) == Sums(60, 0, 0, 0, 0)
  {
    hide SumsIn;
    forall w: Window
      ensures SumsIn([e1], w) == if w.Contains(1) then Sums(100, 0, 0, 0, 0) else Sums(0, 0, 0, 0, 0)
    {
      SumsStep([e1], w);
      SumsStep([], w);
    }
    SumsNext([e1], e2, Window(1, 7));
    SumsNext([e1] + [e2], e3, Window(1, 7));
    SumsNext([e1] + [e2] + [e3], e4, Window(1, 7));
    SumsNext([e1], e2, Window(8, 14));
    SumsNext([e1] + [e2], e3, Window(8, 14));
    SumsNext([e1] + [e2] + [e3], e4, Window(8, 14));
  }

  lemma RunOfTheRecord(limit: int, e1: Entry, e2: Entry, e3: Entry, e4: Entry)
    requires limit >= 100
    requires e1 == Entry(1, Purchase, 100, 100) && e2 == Entry(1, Repayment, -300, 0)
    requires e3 == Entry(8, Purchase, 50, 50) && e4 == Entry(8, Purchase, 10, 10)
    ensures Run(Book(limit, 0, []),
                [PostStep(1, Purchase, 100, true)] + [PostStep(1, Repayment, -300, false)]
                + [PostStep(8, Purchase, 50, true)] + [ReconcileStep] + [PostStep(8, Purchase, 10, true)])
         == Book(limit, 10, [e1] + [e2] + [e3] + [e4])
  {
    var p1, p2 := PostStep(1, Purchase, 100, true), PostStep(1, Repayment, -300, false);
    var p3, p4 := PostStep(8, Purchase, 50, true), PostStep(8, Purchase, 10, true);
    var none: seq<LedgerStep> := [];
    var start := Book(limit, 0, []);
    RunThen(start, none, p1);
    assert none + [p1] == [p1];
    RunThen(start, [p1], p2);
    RunThen(start, [p1] + [p2], p3);
    RunThen(start, [p1] + [p2] + [p3], ReconcileStep);
    RunThen(start, [p1] + [p2] + [p3] + [ReconcileStep], p4);
    AmountsAppend([e1], [e2]);
    AmountsAppend([e1] + [e2], [e3]);
    assert Amounts([e1]) == [100] && Amounts([e2]) == [-300] && Amounts([e3]) == [50];
    SumNext([], 100);
    assert [] + [100] == [100];
    SumNext([100], -300);
    SumNext([100] + [-300], 50);
    assert Run(start, [p1]) == Book(limit, 100, [e1]);
    assert Run(start, [p1] + [p2]) == Book(limit, 0, [e1] + [e2]);
    assert Run(start, [p1] + [p2] + [p3]) == Book(limit, 50, [e1] + [e2] + [e3]);
    assert Run(start, [p1] + [p2] + [p3] + [ReconcileStep]) == Book(limit, 0, [e1] + [e2] + [e3]);
  }
}
