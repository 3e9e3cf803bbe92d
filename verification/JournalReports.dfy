/** Reports derived from posted lines: the trial balance, profit and loss, and the balance sheet. */
module JournalReports {
  import opened Common
  import opened Journal
  import opened JournalChains

  /** A posted line with the columns of its entry that the reports filter and order by. */
  datatype PostedLine = PostedLine(entry: nat, date: Date, store: Option<StoreId>, line: Line)

  datatype Filter = Filter(from: Option<Date>, to: Option<Date>, store: Option<StoreId>, account: Option<Code>) {
    predicate Matches(p: PostedLine) {
      && (from.Some? ==> from.value <= p.date)
      && (to.Some? ==> p.date <= to.value)
      && (store.Some? ==> p.store == store)
      && (account.Some? ==> p.line.account == account.value)
    }
  }

  function Tagged(id: nat, e: Entry): seq<PostedLine> {
    seq(|e.lines|, i requires 0 <= i < |e.lines| => PostedLine(id, e.date, e.store, e.lines[i]))
  }

  /** The lines of every posted entry, in the order they were written. */
  function AllPosted(entries: seq<Entry>): seq<PostedLine> {
    if entries == [] then []
    else
      var last := entries[|entries| - 1];
      AllPosted(entries[..|entries| - 1]) + if last.status == Posted then Tagged(|entries| - 1, last) else []
  }

  function Select(s: seq<PostedLine>, f: Filter): (r: seq<PostedLine>)
    ensures forall p | p in r :: p in s && f.Matches(p)
  {
    if s == [] then []
    else
      var last := s[|s| - 1];
      assert last in s;
      Select(s[..|s| - 1], f) + if f.Matches(last) then [last] else []
  }

  function PostedLines(b: Books, f: Filter): seq<PostedLine> {
    Select(AllPosted(b.entries), f)
  }

  function LinesOf(s: seq<PostedLine>): (r: seq<Line>)
    ensures |r| == |s| && forall i | 0 <= i < |s| :: r[i] == s[i].line
  {
    seq(|s|, i requires 0 <= i < |s| => s[i].line)
  }

  lemma {:induction false} SelectAppend(a: seq<PostedLine>, b: seq<PostedLine>, f: Filter)
    ensures Select(a + b, f) == Select(a, f) + Select(b, f)
  {
    if b == [] {
      assert a + b == a;
    } else {
      assert (a + b)[..|a + b| - 1] == a + b[..|b| - 1];
      SelectAppend(a, b[..|b| - 1], f);
    }
  }

  lemma {:induction false} TotalsAppend(a: seq<Line>, b: seq<Line>)
    ensures DebitSum(a + b) == DebitSum(a) + DebitSum(b) && CreditSum(a + b) == CreditSum(a) + CreditSum(b)
  {
    if b == [] {
      assert a + b == a;
    } else {
      assert (a + b)[..|a + b| - 1] == a + b[..|b| - 1];
      TotalsAppend(a, b[..|b| - 1]);
    }
  }

  /* ---- Every selection of whole entries balances ---- */

  predicate WholeEntry(f: Filter, e: Entry) {
    && (f.from.Some? ==> f.from.value <= e.date) && (f.to.Some? ==> e.date <= f.to.value)
    && (f.store.Some? ==> e.store == f.store)
  }

  lemma SelectNext(s: seq<PostedLine>, p: PostedLine, f: Filter)
    ensures Select(s + [p], f) == if f.Matches(p) then Select(s, f) + [p] else Select(s, f)
  {
    hide Filter.Matches;
    assert (s + [p])[..|s|] == s;
    assert Select(s, f) + [] == Select(s, f);
  }

  lemma TaggedMatches(id: nat, e: Entry, i: nat, f: Filter)
    requires f.account == None && i < |e.lines|
    ensures f.Matches(Tagged(id, e)[i]) <==> WholeEntry(f, e)
  {
  }

  lemma {:induction false} SelectTagged(id: nat, e: Entry, n: nat, f: Filter)
    requires f.account == None && n <= |e.lines|
    ensures Select(Tagged(id, e)[..n], f) == if WholeEntry(f, e) then Tagged(id, e)[..n] else []
  {
    if n > 0 {
      hide Filter.Matches, WholeEntry, Select;
      assert Tagged(id, e)[..n] == Tagged(id, e)[..n - 1] + [Tagged(id, e)[n - 1]];
      SelectNext(Tagged(id, e)[..n - 1], Tagged(id, e)[n - 1], f);
      TaggedMatches(id, e, n - 1, f);
      SelectTagged(id, e, n - 1, f);
    }
  }

  predicate LinesKnown(chart: seq<Account>, lines: seq<Line>) {
    forall l | l in lines :: Known(chart, l.account)
  }

  predicate Fair(chart: seq<Account>, lines: seq<Line>) {
    DebitSum(lines) == CreditSum(lines) && LinesKnown(chart, lines)
  }

  lemma FairAppend(chart: seq<Account>, a: seq<Line>, b: seq<Line>)
    requires Fair(chart, a) && Fair(chart, b)
    ensures Fair(chart, a + b)
  {
    hide Known, DebitSum, CreditSum;
    TotalsAppend(a, b);
  }

  /** A selection without an account filter takes each posted entry whole or not at all. */
  lemma SelectEntry(entries: seq<Entry>, n: nat, f: Filter)
    requires 0 < n <= |entries| && f.account == None
    ensures var e := entries[n - 1];
            LinesOf(Select(AllPosted(entries[..n]), f))
            == LinesOf(Select(AllPosted(entries[..n - 1]), f))
               + if e.status == Posted && WholeEntry(f, e) then e.lines else []
  {
    hide WholeEntry, Select;
    var e := entries[n - 1];
    var before := AllPosted(entries[..n - 1]);
    var tagged := Tagged(n - 1, e);
    assert entries[..n][..n - 1] == entries[..n - 1];
    if e.status == Posted {
      assert AllPosted(entries[..n]) == before + tagged;
      SelectAppend(before, tagged, f);
      SelectTagged(n - 1, e, |e.lines|, f);
      assert tagged[..|e.lines|] == tagged;
    } else {
      assert AllPosted(entries[..n]) == before;
    }
  }

  /** Debits equal credits over every date range and store. */
  lemma {:induction false} SelectionBalances(b: Books, n: nat, f: Filter)
    requires AllProper(b) && n <= |b.entries| && f.account == None
    ensures Fair(b.chart, LinesOf(Select(AllPosted(b.entries[..n]), f)))
  {
    if n > 0 {
      SelectionBalances(b, n - 1, f);
      ProperIsFair(b, n - 1);
      hide Fair, AllProper, Select, AllPosted, LinesOf, WholeEntry;
      SelectEntry(b.entries, n, f);
      var before := LinesOf(Select(AllPosted(b.entries[..n - 1]), f));
      FairAppend(b.chart, before, b.entries[n - 1].lines);
      assert before + [] == before;
    }
  }

  lemma ProperIsFair(b: Books, i: nat)
    requires AllProper(b) && i < |b.entries|
    ensures Fair(b.chart, b.entries[i].lines)
  {
    assert Proper(b.chart, b.entries[i].lines);
  }

  /* ---- Grouping by account ---- */

  function DebitOf(lines: seq<Line>, code: Code): int {
    if lines == [] then 0
    else
      var last := lines[|lines| - 1];
      DebitOf(lines[..|lines| - 1], code) + if last.account == code then last.debit else 0
  }

  function CreditOf(lines: seq<Line>, code: Code): int {
    if lines == [] then 0
    else
      var last := lines[|lines| - 1];
      CreditOf(lines[..|lines| - 1], code) + if last.account == code then last.credit else 0
  }

  predicate HasLine(lines: seq<Line>, code: Code) {
    exists l :: l in lines && l.account == code
  }

  datatype Group = Group(account: Account, debit: int, credit: int)

  /** One group for each account that has a line, in chart order. */
  function Groups(chart: seq<Account>, lines: seq<Line>): seq<Group> {
    if chart == [] then []
    else
      var last := chart[|chart| - 1];
      Groups(chart[..|chart| - 1], lines)
      + if HasLine(lines, last.code) then [Group(last, DebitOf(lines, last.code), CreditOf(lines, last.code))] else []
  }

  lemma {:induction false} NoLineNoAmount(lines: seq<Line>, code: Code)
    requires !HasLine(lines, code)
    ensures DebitOf(lines, code) == 0 && CreditOf(lines, code) == 0
  {
    if lines != [] {
      assert lines == lines[..|lines| - 1] + [lines[|lines| - 1]];
      NoLineNoAmount(lines[..|lines| - 1], code);
    }
  }

  function ChartDebit(chart: seq<Account>, lines: seq<Line>): int {
    if chart == [] then 0 else ChartDebit(chart[..|chart| - 1], lines) + DebitOf(lines, chart[|chart| - 1].code)
  }

  function ChartCredit(chart: seq<Account>, lines: seq<Line>): int {
    if chart == [] then 0 else ChartCredit(chart[..|chart| - 1], lines) + CreditOf(lines, chart[|chart| - 1].code)
  }

  lemma {:induction false} OneAccountTakesALine(chart: seq<Account>, lines: seq<Line>)
    requires UniqueCodes(chart) && lines != []
    ensures var before, last := lines[..|lines| - 1], lines[|lines| - 1];
            && ChartDebit(chart, lines) == ChartDebit(chart, before) + (if Known(chart, last.account) then last.debit else 0)
            && ChartCredit(chart, lines) == ChartCredit(chart, before) + (if Known(chart, last.account) then last.credit else 0)
  {
    if chart != [] {
      var fewer := chart[..|chart| - 1];
      assert chart == fewer + [chart[|chart| - 1]];
      OneAccountTakesALine(fewer, lines);
    }
  }

  /** Grouping loses nothing: over a chart with distinct codes the groups add up to the lines. */
  lemma {:induction false} GroupingConserves(chart: seq<Account>, lines: seq<Line>)
    requires UniqueCodes(chart) && LinesKnown(chart, lines)
    ensures ChartDebit(chart, lines) == DebitSum(lines) && ChartCredit(chart, lines) == CreditSum(lines)
  {
    if lines == [] {
      NothingOnChart(chart);
    } else {
      assert lines == lines[..|lines| - 1] + [lines[|lines| - 1]];
      GroupingConserves(chart, lines[..|lines| - 1]);
      OneAccountTakesALine(chart, lines);
    }
  }

  lemma {:induction false} NothingOnChart(chart: seq<Account>)
    ensures ChartDebit(chart, []) == 0 && ChartCredit(chart, []) == 0
  {
    if chart != [] {
      NothingOnChart(chart[..|chart| - 1]);
    }
  }

  /* ---- Trial balance ---- */

  datatype TrialRow = TrialRow(account: Account, debit: int, credit: int)

  /** An account's net, shown on whichever side it sits. */
  function Presented(g: Group): TrialRow {
    var net := g.debit - g.credit;
    TrialRow(g.account, if net > 0 then net else 0, if net < 0 then -net else 0)
  }

  function RowDebits(rows: seq<TrialRow>): int {
    if rows == [] then 0 else RowDebits(rows[..|rows| - 1]) + rows[|rows| - 1].debit
  }

  function RowCredits(rows: seq<TrialRow>): int {
    if rows == [] then 0 else RowCredits(rows[..|rows| - 1]) + rows[|rows| - 1].credit
  }

  datatype Trial = Trial(rows: seq<TrialRow>, totalDebit: int, totalCredit: int, balanced: bool)

  function UpTo(asOf: Option<Date>, store: Option<StoreId>): Filter {
    Filter(None, asOf, store, None)
  }

  function Selected(b: Books, f: Filter): seq<Line> {
    LinesOf(PostedLines(b, f))
  }

  /** Totals of the groups, and the netted rows, of the lines up to a date. */
  predicate IsTrialOf(t: Trial, chart: seq<Account>, lines: seq<Line>) {
    && t.totalDebit == ChartDebit(chart, lines) && t.totalCredit == ChartCredit(chart, lines)
    && RowDebits(t.rows) - RowCredits(t.rows) == t.totalDebit - t.totalCredit
    && (t.balanced <==> t.totalDebit == t.totalCredit)
    && |t.rows| == |Groups(chart, lines)|
    && forall i | 0 <= i < |t.rows| :: t.rows[i] == Presented(Groups(chart, lines)[i])
  }

  function GroupDebits(gs: seq<Group>): int {
    if gs == [] then 0 else GroupDebits(gs[..|gs| - 1]) + gs[|gs| - 1].debit
  }

  function GroupCredits(gs: seq<Group>): int {
    if gs == [] then 0 else GroupCredits(gs[..|gs| - 1]) + gs[|gs| - 1].credit
  }

  lemma {:induction false} GroupTotals(chart: seq<Account>, lines: seq<Line>)
    ensures GroupDebits(Groups(chart, lines)) == ChartDebit(chart, lines)
    ensures GroupCredits(Groups(chart, lines)) == ChartCredit(chart, lines)
  {
    if chart != [] {
      var fewer, last := chart[..|chart| - 1], chart[|chart| - 1];
      GroupTotals(fewer, lines);
      if HasLine(lines, last.code) {
        assert Groups(chart, lines)[..|Groups(fewer, lines)|] == Groups(fewer, lines);
      } else {
        NoLineNoAmount(lines, last.code);
        assert Groups(chart, lines) == Groups(fewer, lines);
      }
    }
  }

  /** An account with a line has one group, which holds all its lines; one without has none. */
  lemma {:induction false} GroupOfAccount(chart: seq<Account>, lines: seq<Line>, a: Account)
    requires UniqueCodes(chart)
    ensures var groups := Groups(chart, lines);
            && (forall g | g in groups :: g.account in chart && g == Group(g.account, DebitOf(lines, g.account.code), CreditOf(lines, g.account.code)))
            && (forall i, j | 0 <= i < j < |groups| :: groups[i].account != groups[j].account)
            && (a in chart && HasLine(lines, a.code) <==> exists g :: g in groups && g.account == a)
  {
    hide DebitOf, CreditOf, HasLine;
    if chart != [] {
      var fewer, last := chart[..|chart| - 1], chart[|chart| - 1];
      assert chart == fewer + [last];
      GroupOfAccount(fewer, lines, a);
      var before, groups := Groups(fewer, lines), Groups(chart, lines);
      assert before + [] == before;
      assert last !in fewer;
      if HasLine(lines, last.code) {
        var g := Group(last, DebitOf(lines, last.code), CreditOf(lines, last.code));
        assert groups == before + [g] && g in groups;
      }
    }
  }

  method TrialBalance(b: Books, asOf: Option<Date>, store: Option<StoreId>) returns (t: Trial)
    ensures IsTrialOf(t, b.chart, Selected(b, UpTo(asOf, store)))
  {
    var lines := Selected(b, UpTo(asOf, store));
    var groups := Groups(b.chart, lines);
    var out: seq<TrialRow> := [];
    var totalDebit, totalCredit := 0, 0;
    for i := 0 to |groups|
      invariant |out| == i && forall j | 0 <= j < i :: out[j] == Presented(groups[j])
      invariant totalDebit == GroupDebits(groups[..i]) && totalCredit == GroupCredits(groups[..i])
      invariant RowDebits(out) - RowCredits(out) == totalDebit - totalCredit
    {
      assert groups[..i + 1][..i] == groups[..i];
      var debit, credit := groups[i].debit, groups[i].credit;
      totalDebit := totalDebit + debit;
      totalCredit := totalCredit + credit;
      var net := debit - credit;
      ghost var before := out;
      out := out + [TrialRow(groups[i].account, if net > 0 then net else 0, if net < 0 then -net else 0)];
      assert out[..i] == before;
    }
    assert groups[..|groups|] == groups;
    GroupTotals(b.chart, lines);
    t := Trial(out, totalDebit, totalCredit, totalDebit == totalCredit);
  }

  /** Each row shows one account's net, on the side where it lies and on no other. */
  lemma TrialRowsAreNets(t: Trial, chart: seq<Account>, lines: seq<Line>, i: nat)
    requires UniqueCodes(chart) && IsTrialOf(t, chart, lines) && i < |t.rows|
    ensures var row := t.rows[i];
            && row.account in chart && row.debit >= 0 && row.credit >= 0 && (row.debit == 0 || row.credit == 0)
            && row.debit - row.credit == DebitOf(lines, row.account.code) - CreditOf(lines, row.account.code)
  {
    hide Groups, DebitOf, CreditOf, UniqueCodes;
    var g := Groups(chart, lines)[i];
    GroupOfAccount(chart, lines, g.account);
    assert g in Groups(chart, lines);
  }

  /**
   In every reachable journal, as of any date and for any store, the trial balance's gross
   totals and the sums of its netted rows agree on both sides, and both are the posted lines'.
   */
  lemma TrialBalanceBalances(chart: seq<Account>, steps: seq<Step>, asOf: Option<Date>, store: Option<StoreId>, t: Trial)
    requires UniqueCodes(chart)
    requires IsTrialOf(t, chart, Selected(Run(Opened(chart), steps), UpTo(asOf, store)))
    ensures t.balanced && t.totalDebit == t.totalCredit && RowDebits(t.rows) == RowCredits(t.rows)
    ensures t.totalDebit == DebitSum(Selected(Run(Opened(chart), steps), UpTo(asOf, store)))
  {
    hide AllProper, Run, LinesKnown, UniqueCodes, Groups;
    var b := Run(Opened(chart), steps);
    ReachableIsSound(chart, steps);
    SelectionBalances(b, |b.entries|, UpTo(asOf, store));
    assert b.entries[..|b.entries|] == b.entries;
    GroupingConserves(chart, Selected(b, UpTo(asOf, store)));
  }

  /* ---- Balance sheet ---- */

  /** What accounts of some types come to, each in its own normal direction. */
  function NaturalTotal(chart: seq<Account>, kinds: set<AccountType>, lines: seq<Line>): int {
    if chart == [] then 0
    else
      var last := chart[|chart| - 1];
      NaturalTotal(chart[..|chart| - 1], kinds, lines)
      + if last.kind in kinds then last.Signed(DebitOf(lines, last.code), CreditOf(lines, last.code)) else 0
  }

  datatype AmountRow = AmountRow(account: Account, amount: int)

  /** One row for each account of some types that does not net to zero, in chart order. */
  function NonZeroRows(chart: seq<Account>, kinds: set<AccountType>, lines: seq<Line>): seq<AmountRow> {
    if chart == [] then []
    else
      var last := chart[|chart| - 1];
      var amount := last.Signed(DebitOf(lines, last.code), CreditOf(lines, last.code));
      NonZeroRows(chart[..|chart| - 1], kinds, lines) + if last.kind in kinds && amount != 0 then [AmountRow(last, amount)] else []
  }

  function RowsTotal(rows: seq<AmountRow>): int {
    if rows == [] then 0 else RowsTotal(rows[..|rows| - 1]) + rows[|rows| - 1].amount
  }

  predicate IsRowOf(r: AmountRow, chart: seq<Account>, kinds: set<AccountType>, lines: seq<Line>) {
    && r.account in chart && r.account.kind in kinds && r.amount != 0
    && r.amount == if r.account.kind in {Asset, Expense}
                   then DebitOf(lines, r.account.code) - CreditOf(lines, r.account.code)
                   else CreditOf(lines, r.account.code) - DebitOf(lines, r.account.code)
  }

  lemma {:induction false} RowExactly(chart: seq<Account>, kinds: set<AccountType>, lines: seq<Line>, r: AmountRow)
    ensures r in NonZeroRows(chart, kinds, lines) <==> IsRowOf(r, chart, kinds, lines)
  {
    hide DebitOf, CreditOf;
    if chart != [] {
      assert chart == chart[..|chart| - 1] + [chart[|chart| - 1]];
      RowExactly(chart[..|chart| - 1], kinds, lines, r);
    }
  }

  lemma {:induction false} RowsAddUp(chart: seq<Account>, kinds: set<AccountType>, lines: seq<Line>)
    ensures RowsTotal(NonZeroRows(chart, kinds, lines)) == NaturalTotal(chart, kinds, lines)
  {
    hide DebitOf, CreditOf, Account.Signed;
    if chart != [] {
      var before, rows := NonZeroRows(chart[..|chart| - 1], kinds, lines), NonZeroRows(chart, kinds, lines);
      RowsAddUp(chart[..|chart| - 1], kinds, lines);
      assert rows == before || rows[..|before|] == before;
    }
  }

  lemma {:induction false} RowsDistinct(chart: seq<Account>, kinds: set<AccountType>, lines: seq<Line>)
    requires UniqueCodes(chart)
    ensures var rows := NonZeroRows(chart, kinds, lines); forall i, j | 0 <= i < j < |rows| :: rows[i].account != rows[j].account
  {
    hide DebitOf, CreditOf, Account.Signed;
    if chart != [] {
      var fewer, last := chart[..|chart| - 1], chart[|chart| - 1];
      var before := NonZeroRows(fewer, kinds, lines);
      RowsDistinct(fewer, kinds, lines);
      forall i | 0 <= i < |before|
        ensures before[i].account != last
      {
        RowExactly(fewer, kinds, lines, before[i]);
      }
    }
  }

  /** The rows are all the non-zero accounts, each once, and they add up to the reported total. */
  lemma RowsAreExact(chart: seq<Account>, kinds: set<AccountType>, lines: seq<Line>)
    requires UniqueCodes(chart)
    ensures var rows := NonZeroRows(chart, kinds, lines);
            && (forall r :: r in rows <==> IsRowOf(r, chart, kinds, lines))
            && (forall i, j | 0 <= i < j < |rows| :: rows[i].account != rows[j].account)
            && RowsTotal(rows) == NaturalTotal(chart, kinds, lines)
  {
    hide NonZeroRows, IsRowOf, UniqueCodes, NaturalTotal, RowsTotal;
    forall r: AmountRow
      ensures r in NonZeroRows(chart, kinds, lines) <==> IsRowOf(r, chart, kinds, lines)
    {
      RowExactly(chart, kinds, lines, r);
    }
    RowsDistinct(chart, kinds, lines);
    RowsAddUp(chart, kinds, lines);
  }

  /** Totals by type, one account at a time, leaving out accounts that net to zero. */
  method TotalsByType(b: Books, kinds: set<AccountType>, from: Option<Date>, to: Option<Date>, store: Option<StoreId>)
    returns (out: seq<AmountRow>, total: int)
    ensures var lines := Selected(b, Filter(from, to, store, None));
            out == NonZeroRows(b.chart, kinds, lines) && total == NaturalTotal(b.chart, kinds, lines)
  {
    var lines := Selected(b, Filter(from, to, store, None));
    out, total := [], 0;
    for i := 0 to |b.chart|
      invariant total == NaturalTotal(b.chart[..i], kinds, lines)
      invariant out == NonZeroRows(b.chart[..i], kinds, lines)
    {
      assert b.chart[..i + 1][..i] == b.chart[..i];
      var a := b.chart[i];
      if a.kind in kinds && HasLine(lines, a.code) {
        var debit, credit := DebitOf(lines, a.code), CreditOf(lines, a.code);
        var amount := if a.kind in {Income, Liability, Equity} then credit - debit else debit - credit;
        if amount != 0 {
          total := total + amount;
          out := out + [AmountRow(a, amount)];
        }
      } else if !HasLine(lines, a.code) {
        NoLineNoAmount(lines, a.code);
      }
    }
    assert b.chart[..|b.chart|] == b.chart;
  }

  datatype ProfitLoss = ProfitLoss(income: seq<AmountRow>, totalIncome: int, expenses: seq<AmountRow>, totalExpenses: int, netProfit: int)

  function ProfitLossOf(chart: seq<Account>, lines: seq<Line>): ProfitLoss {
    var income, expenses := NaturalTotal(chart, {Income}, lines), NaturalTotal(chart, {Expense}, lines);
    ProfitLoss(NonZeroRows(chart, {Income}, lines), income, NonZeroRows(chart, {Expense}, lines), expenses, income - expenses)
  }

  method ProfitAndLoss(b: Books, from: Option<Date>, to: Option<Date>, store: Option<StoreId>) returns (p: ProfitLoss)
    ensures p == ProfitLossOf(b.chart, Selected(b, Filter(from, to, store, None)))
  {
    var income, totalIncome := TotalsByType(b, {Income}, from, to, store);
    var expenses, totalExpenses := TotalsByType(b, {Expense}, from, to, store);
    p := ProfitLoss(income, totalIncome, expenses, totalExpenses, totalIncome - totalExpenses);
  }

  /** Each side of the profit and loss account is its own rows and their sum. */
  lemma ProfitLossAddsUp(chart: seq<Account>, lines: seq<Line>)
    requires UniqueCodes(chart)
    ensures var p := ProfitLossOf(chart, lines);
            && (forall r :: r in p.income <==> IsRowOf(r, chart, {Income}, lines))
            && (forall r :: r in p.expenses <==> IsRowOf(r, chart, {Expense}, lines))
            && p.totalIncome == RowsTotal(p.income) && p.totalExpenses == RowsTotal(p.expenses)
            && p.netProfit == RowsTotal(p.income) - RowsTotal(p.expenses)
  {
    hide NonZeroRows, IsRowOf, UniqueCodes, NaturalTotal, RowsTotal;
    RowsAreExact(chart, {Income}, lines);
    RowsAreExact(chart, {Expense}, lines);
  }

  datatype Sheet = Sheet(
    assets: seq<AmountRow>,
    totalAssets: int,
    liabilities: seq<AmountRow>,
    totalLiabilities: int,
    equity: seq<AmountRow>,
    retainedEarnings: int,
    totalEquity: int,
    balanced: bool
  )

  function SheetOf(chart: seq<Account>, lines: seq<Line>): Sheet {
    var assets, liabilities := NaturalTotal(chart, {Asset}, lines), NaturalTotal(chart, {Liability}, lines);
    var retained := ProfitLossOf(chart, lines).netProfit;
    var equity := NaturalTotal(chart, {Equity}, lines) + retained;
    Sheet(NonZeroRows(chart, {Asset}, lines), assets, NonZeroRows(chart, {Liability}, lines), liabilities,
          NonZeroRows(chart, {Equity}, lines), retained, equity, assets == liabilities + equity)
  }

  method BalanceSheet(b: Books, asOf: Option<Date>, today: Date, store: Option<StoreId>) returns (s: Sheet)
    ensures s == SheetOf(b.chart, Selected(b, UpTo(Some(if asOf.Some? then asOf.value else today), store)))
  {
    var day := if asOf.Some? then asOf.value else today;
    var assets, totalAssets := TotalsByType(b, {Asset}, None, Some(day), store);
    var liabilities, totalLiabilities := TotalsByType(b, {Liability}, None, Some(day), store);
    var equity, totalEquity := TotalsByType(b, {Equity}, None, Some(day), store);
    var pnl := ProfitAndLoss(b, None, Some(day), store);
    var withEarnings := totalEquity + pnl.netProfit;
    s := Sheet(assets, totalAssets, liabilities, totalLiabilities, equity, pnl.netProfit, withEarnings,
               totalAssets == totalLiabilities + withEarnings);
  }

  /** The five types taken together, on a common sign. */
  function SheetGap(chart: seq<Account>, lines: seq<Line>): int {
    NaturalTotal(chart, {Asset}, lines) + NaturalTotal(chart, {Expense}, lines)
    - NaturalTotal(chart, {Liability}, lines) - NaturalTotal(chart, {Equity}, lines) - NaturalTotal(chart, {Income}, lines)
  }

  lemma GapStep(chart: seq<Account>, lines: seq<Line>)
    requires chart != []
    ensures var a := chart[|chart| - 1];
            SheetGap(chart, lines) == SheetGap(chart[..|chart| - 1], lines) + DebitOf(lines, a.code) - CreditOf(lines, a.code)
  {
    hide DebitOf, CreditOf;
    var a := chart[|chart| - 1];
    match a.kind
    case Asset =>
    case Liability =>
    case Equity =>
    case Income =>
    case Expense =>
  }

  /** Every account has one of the five types. */
  lemma {:induction false} TypesPartitionTheChart(chart: seq<Account>, lines: seq<Line>)
    ensures SheetGap(chart, lines) == ChartDebit(chart, lines) - ChartCredit(chart, lines)
  {
    if chart != [] {
      TypesPartitionTheChart(chart[..|chart| - 1], lines);
      GapStep(chart, lines);
    }
  }

  /** Each part of the sheet is its own rows and their sum; equity also carries the profit of all time. */
  lemma SheetAddsUp(chart: seq<Account>, lines: seq<Line>)
    requires UniqueCodes(chart)
    ensures var s := SheetOf(chart, lines);
            && (forall r :: r in s.assets <==> IsRowOf(r, chart, {Asset}, lines))
            && (forall r :: r in s.liabilities <==> IsRowOf(r, chart, {Liability}, lines))
            && (forall r :: r in s.equity <==> IsRowOf(r, chart, {Equity}, lines))
            && s.totalAssets == RowsTotal(s.assets) && s.totalLiabilities == RowsTotal(s.liabilities)
            && s.retainedEarnings == RowsTotal(NonZeroRows(chart, {Income}, lines)) - RowsTotal(NonZeroRows(chart, {Expense}, lines))
            && s.totalEquity == RowsTotal(s.equity) + s.retainedEarnings
            && (s.balanced <==> s.totalAssets == s.totalLiabilities + s.totalEquity)
  {
    hide NonZeroRows, IsRowOf, UniqueCodes, NaturalTotal, RowsTotal;
    RowsAreExact(chart, {Asset}, lines);
    RowsAreExact(chart, {Liability}, lines);
    RowsAreExact(chart, {Equity}, lines);
    RowsAreExact(chart, {Income}, lines);
    RowsAreExact(chart, {Expense}, lines);
  }

  /** In every reachable journal, as of any date and for any store, the sheet balances. */
  lemma BalanceSheetBalances(chart: seq<Account>, steps: seq<Step>, day: Date, store: Option<StoreId>)
    requires UniqueCodes(chart)
    ensures var s := SheetOf(chart, Selected(Run(Opened(chart), steps), UpTo(Some(day), store)));
            s.balanced && s.totalAssets == s.totalLiabilities + s.totalEquity
  {
    hide AllProper, Run, LinesKnown, UniqueCodes, NaturalTotal;
    var b := Run(Opened(chart), steps);
    ReachableIsSound(chart, steps);
    SelectionBalances(b, |b.entries|, UpTo(Some(day), store));
    assert b.entries[..|b.entries|] == b.entries;
    GroupingConserves(chart, Selected(b, UpTo(Some(day), store)));
    TypesPartitionTheChart(chart, Selected(b, UpTo(Some(day), store)));
  }
}
