/**
 Closing billing cycles: cut one statement per complete window, from where the last statement
 ended, at most 24 per run, skipping windows in which nothing happened and nothing was owed.
 */
module Billing {
  import opened Common
  import opened Calendar
  import opened CreditLedger

  const MAX_WINDOWS_PER_RUN: nat := 24

  function GraceDays(cycle: Cycle): nat {
    match cycle
    case Weekly => 5
    case Monthly => 10
  }

  /** Per-type totals of the ledger inside one window. */
  datatype Sums = Sums(purchases: int, repayments: int, fees: int, adjustments: int, refunds: int) {
    function Add(kind: EntryType, amount: int): Sums {
      match kind
      case Purchase => this.(purchases := purchases + amount)
      case Repayment => this.(repayments := repayments + amount)
      case Fee => this.(fees := fees + amount)
      case Adjustment => this.(adjustments := adjustments + amount)
      case Refund => this.(refunds := refunds + amount)
    }

    function Total(): int {
      purchases + repayments + fees + adjustments + refunds
    }

    predicate HasActivity() {
      purchases != 0 || repayments != 0 || fees != 0 || adjustments != 0 || refunds != 0
    }

    /** What was paid back in the window; the ledger holds it with a minus sign. */
    function Payments(): int {
      -(repayments + refunds)
    }
  }

  function SumsIn(entries: seq<Entry>, w: Window): Sums {
    if entries == [] then Sums(0, 0, 0, 0, 0)
    else
      var last := entries[|entries| - 1];
      var before := SumsIn(entries[..|entries| - 1], w);
      if w.Contains(last.date) then before.Add(last.kind, last.amount) else before
  }

  function ClosingOf(opening: int, s: Sums): int {
    AtLeastZero(opening + s.purchases + s.fees + s.adjustments - s.Payments())
  }

  function StatementFor(cycle: Cycle, w: Window, opening: int, s: Sums): Statement {
    var closing := ClosingOf(opening, s);
    Statement(w.start, w.end, opening, s.purchases, s.Payments(), s.fees, closing,
              w.end + GraceDays(cycle), if closing <= 0 then Paid else Open)
  }

  /** The statement one visited window produces, if any. */
  function Made(entries: seq<Entry>, cycle: Cycle, cursor: Day, opening: int): seq<Statement> {
    var w := WindowAfter(cycle, cursor);
    var s := SumsIn(entries, w);
    // An idle window with nothing owed leaves no paper.
    if s.HasActivity() || opening > 0 then [StatementFor(cycle, w, opening, s)] else []
  }

  /** The balance a visited window carries into the next one. */
  function Carried(entries: seq<Entry>, cycle: Cycle, cursor: Day, opening: int): int {
    ClosingOf(opening, SumsIn(entries, WindowAfter(cycle, cursor)))
  }

  /** All statements due from a cursor on, with no cap on their number. */
  function Bill(entries: seq<Entry>, cycle: Cycle, cursor: Day, opening: int, today: Day): seq<Statement>
    decreases today - cursor
  {
    WindowOfMember(cycle, cursor, cursor);
    var w := WindowAfter(cycle, cursor);
    if w.end >= today then []
    else Made(entries, cycle, cursor, opening)
         + Bill(entries, cycle, w.end + 1, Carried(entries, cycle, cursor, opening), today)
  }

  /** account.statements.order_by("-period_end").first() */
  function Latest(statements: seq<Statement>): (r: Statement)
    requires statements != []
    ensures r in statements
    ensures forall s | s in statements :: s.end <= r.end
  {
    var last := statements[|statements| - 1];
    if |statements| == 1 then last
    else
      var best := Latest(statements[..|statements| - 1]);
      assert forall s | s in statements :: s == last || s in statements[..|statements| - 1];
      if best.end <= last.end then last else best
  }

  datatype Position = Position(cursor: Day, opening: int)

  /** Where a run starts: after the last statement, else at the first ledger entry. */
  function Restart(entries: seq<Entry>, statements: seq<Statement>): Option<Position> {
    if statements != [] then Some(Position(Latest(statements).end + 1, Latest(statements).closing))
    else if entries == [] then None
    else Some(Position(entries[0].date, 0))
  }

  function Due(entries: seq<Entry>, statements: seq<Statement>, cycle: Cycle, today: Day): seq<Statement> {
    match Restart(entries, statements)
    case None => []
    case Some(p) => Bill(entries, cycle, p.cursor, p.opening, today)
  }

  function Capped(s: seq<Statement>): seq<Statement> {
    s[..Min(MAX_WINDOWS_PER_RUN, |s|)]
  }

  /** The shape of what one window produces: at most one statement, chained to its neighbours. */
  lemma MadeShape(entries: seq<Entry>, cycle: Cycle, cursor: Day, opening: int)
    ensures var made, w := Made(entries, cycle, cursor, opening), WindowAfter(cycle, cursor);
            && Carried(entries, cycle, cursor, opening) >= 0
            && (made == [] && opening >= 0 ==> Carried(entries, cycle, cursor, opening) == opening == 0)
            && (made != [] ==>
                  && |made| == 1 && made[0].start == w.start && made[0].end == w.end
                  && made[0].opening == opening && made[0].closing == Carried(entries, cycle, cursor, opening))
  {
    hide Calendar.WindowAfter, SumsIn;
  }

  /** A window's outcome depends on the ledger only through the window's sums. */
  lemma MadeFromSums(entries: seq<Entry>, others: seq<Entry>, cycle: Cycle, cursor: Day, opening: int)
    requires SumsIn(entries, WindowAfter(cycle, cursor)) == SumsIn(others, WindowAfter(cycle, cursor))
    ensures Made(entries, cycle, cursor, opening) == Made(others, cycle, cursor, opening)
    ensures Carried(entries, cycle, cursor, opening) == Carried(others, cycle, cursor, opening)
  {
    hide Calendar.WindowAfter, SumsIn, StatementFor, ClosingOf;
  }

  lemma BillDone(entries: seq<Entry>, cycle: Cycle, cursor: Day, opening: int, today: Day)
    requires WindowAfter(cycle, cursor).end >= today
    ensures Bill(entries, cycle, cursor, opening, today) == []
  {
  }

  /** What visiting one complete window adds, and where it leaves the cursor. */
  lemma BillVisit(entries: seq<Entry>, cycle: Cycle, cursor: Day, opening: int, today: Day)
    requires WindowAfter(cycle, cursor).end < today
    ensures var w := WindowAfter(cycle, cursor);
            && cursor <= w.end
            && Bill(entries, cycle, cursor, opening, today)
               == Made(entries, cycle, cursor, opening)
                  + Bill(entries, cycle, w.end + 1, Carried(entries, cycle, cursor, opening), today)
  {
    hide Calendar.WindowAfter, Made, Carried;
    WindowOfMember(cycle, cursor, cursor);
  }

  lemma CappedPrefix(created: seq<Statement>, rest: seq<Statement>)
    requires |created| <= MAX_WINDOWS_PER_RUN
    requires |created| == MAX_WINDOWS_PER_RUN || rest == []
    ensures Capped(created + rest) == created
  {
  }

  /** The rollup of one window, written out. */
  lemma RollupWrittenOut(cycle: Cycle, w: Window, opening: int, sums: Sums)
    ensures var payments := -(sums.repayments + sums.refunds);
            var raw := opening + sums.purchases + sums.fees + sums.adjustments - payments;
            var closing := if raw < 0 then 0 else raw;
            && ClosingOf(opening, sums) == closing
            && StatementFor(cycle, w, opening, sums)
               == Statement(w.start, w.end, opening, sums.purchases, payments, sums.fees, closing,
                            w.end + GraceDays(cycle), if closing <= 0 then Paid else Open)
  {
  }

  lemma MadeWrittenOut(entries: seq<Entry>, cycle: Cycle, cursor: Day, opening: int)
    ensures var w := WindowAfter(cycle, cursor);
            var sums := SumsIn(entries, w);
            var payments := -(sums.repayments + sums.refunds);
            var raw := opening + sums.purchases + sums.fees + sums.adjustments - payments;
            var closing := if raw < 0 then 0 else raw;
            && Carried(entries, cycle, cursor, opening) == closing
            && Made(entries, cycle, cursor, opening) ==
               if sums.HasActivity() || opening > 0
               then [Statement(w.start, w.end, opening, sums.purchases, payments, sums.fees, closing,
                               w.end + GraceDays(cycle), if closing <= 0 then Paid else Open)]
               else []
  {
    hide Calendar.WindowAfter, SumsIn, StatementFor, ClosingOf, Sums.HasActivity, GraceDays;
    RollupWrittenOut(cycle, WindowAfter(cycle, cursor), opening, SumsIn(entries, WindowAfter(cycle, cursor)));
  }

  /** The loop over one account's windows, starting where its statements end. */
  method CloseCyclesForAccount(a: CreditAccount, today: Day) returns (created: seq<Statement>)
    modifies a`statements
    ensures created == Capped(Due(a.entries, old(a.statements), a.cycle, today))
    ensures a.statements == old(a.statements) + created
  {
    hide Calendar.WindowAfter, SumsIn, Bill, Made, Carried, Latest, Sums.HasActivity, GraceDays, Capped, StatementFor, ClosingOf;
    created := [];
    var entries, cycle := a.entries, a.cycle;
    var cursor: Day, opening;
    if a.statements != [] {
      var last := Latest(a.statements);
      cursor, opening := last.end + 1, last.closing;
    } else {
      if entries == [] {
        CappedPrefix(created, []);
        assert created + [] == created;
        return;
      }
      cursor, opening := entries[0].date, 0;
    }
    ghost var due := Bill(entries, cycle, cursor, opening, today);
    while |created| < MAX_WINDOWS_PER_RUN
      invariant |created| <= MAX_WINDOWS_PER_RUN
      invariant due == created + Bill(entries, cycle, cursor, opening, today)
      invariant a.statements == old(a.statements) + created
      decreases today - cursor
    {
      var w := WindowAfter(cycle, cursor);
      if w.end >= today {
        BillDone(entries, cycle, cursor, opening, today);
        break;
      }
      BillVisit(entries, cycle, cursor, opening, today);
      MadeWrittenOut(entries, cycle, cursor, opening);
      ghost var soFar := created;
      ghost var made := Made(entries, cycle, cursor, opening);
      var sums := SumsIn(entries, w);
      var payments := -(sums.repayments + sums.refunds);
      var closing := opening + sums.purchases + sums.fees + sums.adjustments - payments;
      if closing < 0 {
        closing := 0;
      }
      if sums.HasActivity() || opening > 0 {
        var statement := Statement(w.start, w.end, opening, sums.purchases, payments, sums.fees, closing,
                                   w.end + GraceDays(cycle), if closing <= 0 then Paid else Open);
        a.statements := a.statements + [statement];
        created := created + [statement];
      }
      assert created == soFar + made;
      opening := closing;
      cursor := w.end + 1;
    }
    CappedPrefix(created, Bill(entries, cycle, cursor, opening, today));
  }

  /* ---- Ageing ---- */

  predicate PastDue(s: Statement, today: Day) {
    (s.status == Open || s.status == PartiallyPaid) && s.dueDate < today && s.closing > 0
  }

  function Aged(statements: seq<Statement>, today: Day): (r: seq<Statement>)
    ensures |r| == |statements|
    ensures forall i | 0 <= i < |r| ::
      r[i] == if PastDue(statements[i], today) then statements[i].(status := Overdue) else statements[i]
  {
    seq(|statements|, i requires 0 <= i < |statements| =>
      if PastDue(statements[i], today) then statements[i].(status := Overdue) else statements[i])
  }

  function PastDueCount(statements: seq<Statement>, today: Day): nat {
    if statements == [] then 0
    else PastDueCount(statements[..|statements| - 1], today)
         + if PastDue(statements[|statements| - 1], today) then 1 else 0
  }

  /**
   Ageing turns overdue exactly the statements that are open or part-paid, past their due date and
   not nil; it touches nothing else of any statement, and counts those it turns.
   */
  lemma AgeingIsExact(statements: seq<Statement>, today: Day)
    ensures var aged := Aged(statements, today);
            && |aged| == |statements|
            && (forall i | 0 <= i < |aged| ::
                  var s := statements[i];
                  aged[i] == s.(status := if s.status in {Open, PartiallyPaid} && s.dueDate < today && s.closing > 0 then Overdue else s.status))
            && PastDueCount(statements, today) == |set i | 0 <= i < |aged| && aged[i] != statements[i]|
  {
    var aged := Aged(statements, today);
    forall i | 0 <= i < |aged|
      ensures aged[i] != statements[i] <==> PastDue(statements[i], today)
    {
    }
    hide Aged, PastDue;
    PastDueCounted(statements, today);
    assert (set i | 0 <= i < |aged| && aged[i] != statements[i]) == (set i | 0 <= i < |statements| && PastDue(statements[i], today));
  }

  lemma {:induction false} PastDueCounted(statements: seq<Statement>, today: Day)
    ensures PastDueCount(statements, today) == |set i | 0 <= i < |statements| && PastDue(statements[i], today)|
  {
    hide PastDue;
    if statements != [] {
      var n := |statements| - 1;
      var before := statements[..n];
      PastDueCounted(before, today);
      var hits := set i | 0 <= i < n && PastDue(before[i], today);
      assert forall i | 0 <= i < n :: statements[i] == before[i];
      assert (set i | 0 <= i < n + 1 && PastDue(statements[i], today)) == hits + if PastDue(statements[n], today) then {n} else {};
    }
  }

  /** Age the statements of one account, counting the ones that change. */
  method MarkOverdue(a: CreditAccount, today: Day) returns (flipped: nat)
    modifies a`statements
    ensures a.statements == Aged(old(a.statements), today)
    ensures flipped == PastDueCount(old(a.statements), today)
  {
    hide PastDue;
    var before := a.statements;
    ghost var aged := Aged(before, today);
    flipped := 0;
    for i := 0 to |before|
      invariant |a.statements| == |before|
      invariant flipped == PastDueCount(before[..i], today)
      invariant forall j | 0 <= j < |before| :: a.statements[j] == if j < i then aged[j] else before[j]
    {
      assert before[..i + 1][..i] == before[..i];
      if PastDue(before[i], today) {
        a.statements := a.statements[i := before[i].(status := Overdue)];
        flipped := flipped + 1;
      }
    }
    assert before[..|before|] == before;
    assert a.statements == aged;
  }

  /** One account as a run finds it. */
  datatype Billable = Billable(entries: seq<Entry>, statements: seq<Statement>, cycle: Cycle)

  function BookOf(accounts: seq<CreditAccount>): (r: seq<Billable>)
    reads accounts
    ensures |r| == |accounts|
    ensures forall i | 0 <= i < |r| :: r[i] == Billable(accounts[i].entries, accounts[i].statements, accounts[i].cycle)
  {
    if accounts == [] then []
    else
      var last := accounts[|accounts| - 1];
      BookOf(accounts[..|accounts| - 1]) + [Billable(last.entries, last.statements, last.cycle)]
  }

  /** What a run creates on one account; an account without any entry is not billed. */
  function CreatedFor(b: Billable, today: Day): seq<Statement> {
    if b.entries == [] then [] else Capped(Due(b.entries, b.statements, b.cycle, today))
  }

  function AllClosed(book: seq<Billable>, today: Day): (r: seq<Billable>)
    ensures |r| == |book|
    ensures forall i | 0 <= i < |r| :: r[i] == book[i].(statements := book[i].statements + CreatedFor(book[i], today))
  {
    seq(|book|, i requires 0 <= i < |book| => book[i].(statements := book[i].statements + CreatedFor(book[i], today)))
  }

  function AllAged(book: seq<Billable>, today: Day): (r: seq<Billable>)
    ensures |r| == |book|
    ensures forall i | 0 <= i < |r| :: r[i] == book[i].(statements := Aged(book[i].statements, today))
  {
    seq(|book|, i requires 0 <= i < |book| => book[i].(statements := Aged(book[i].statements, today)))
  }

  function StatementCount(book: seq<Billable>): nat {
    if book == [] then 0 else StatementCount(book[..|book| - 1]) + |book[|book| - 1].statements|
  }

  function PastDueIn(book: seq<Billable>, today: Day): nat {
    if book == [] then 0 else PastDueIn(book[..|book| - 1], today) + PastDueCount(book[|book| - 1].statements, today)
  }

  lemma StatementCountNext(book: seq<Billable>, i: nat)
    requires i < |book|
    ensures StatementCount(book[..i + 1]) == StatementCount(book[..i]) + |book[i].statements|
  {
    assert book[..i + 1][..i] == book[..i];
  }

  lemma PastDueInNext(book: seq<Billable>, i: nat, today: Day)
    requires i < |book|
    ensures PastDueIn(book[..i + 1], today) == PastDueIn(book[..i], today) + PastDueCount(book[i].statements, today)
  {
    hide PastDueCount;
    assert book[..i + 1][..i] == book[..i];
  }

  predicate AllDifferent(accounts: seq<CreditAccount>) {
    forall i, j | 0 <= i < j < |accounts| :: accounts[i] != accounts[j]
  }

  lemma OthersDiffer(accounts: seq<CreditAccount>, i: nat)
    requires AllDifferent(accounts) && i < |accounts|
    ensures forall j | 0 <= j < |accounts| && j != i :: accounts[j] != accounts[i]
  {
  }

  method CloseAll(accounts: seq<CreditAccount>, today: Day) returns (created: nat)
    requires AllDifferent(accounts)
    modifies accounts`statements
    ensures BookOf(accounts) == AllClosed(old(BookOf(accounts)), today)
    ensures StatementCount(BookOf(accounts)) == StatementCount(old(BookOf(accounts))) + created
  {
    hide *;
    ghost var book := BookOf(accounts);
    ghost var closed := AllClosed(book, today);
    created := 0;
    NoStatements(book, closed);
    for i := 0 to |accounts|
      invariant forall j | 0 <= j < i :: accounts[j].statements == closed[j].statements
      invariant forall j | i <= j < |accounts| :: accounts[j].statements == book[j].statements
      invariant StatementCount(closed[..i]) == StatementCount(book[..i]) + created
    {
      OthersDiffer(accounts, i);
      StatementCountNext(book, i);
      StatementCountNext(closed, i);
      CreatedForDue(book[i], today);
      if accounts[i].entries != [] {
        var made := CloseCyclesForAccount(accounts[i], today);
        created := created + |made|;
      }
    }
    assert book[..|book|] == book && closed[..|closed|] == closed;
    assert BookOf(accounts) == closed;
  }

  lemma NoStatements(book: seq<Billable>, closed: seq<Billable>)
    ensures StatementCount(book[..0]) == 0 == StatementCount(closed[..0])
  {
  }

  lemma CreatedForDue(b: Billable, today: Day)
    ensures CreatedFor(b, today) == if b.entries == [] then [] else Capped(Due(b.entries, b.statements, b.cycle, today))
  {
    hide Due, Capped;
  }

  method AgeAll(accounts: seq<CreditAccount>, today: Day) returns (overdue: nat)
    requires AllDifferent(accounts)
    modifies accounts`statements
    ensures BookOf(accounts) == AllAged(old(BookOf(accounts)), today)
    ensures overdue == PastDueIn(old(BookOf(accounts)), today)
  {
    hide Aged, PastDueCount, BookOf, AllAged, AllDifferent;
    ghost var book := BookOf(accounts);
    ghost var aged := AllAged(book, today);
    overdue := 0;
    for i := 0 to |accounts|
      invariant forall j | 0 <= j < i :: accounts[j].statements == aged[j].statements
      invariant forall j | i <= j < |accounts| :: accounts[j].statements == book[j].statements
      invariant overdue == PastDueIn(book[..i], today)
    {
      OthersDiffer(accounts, i);
      PastDueInNext(book, i, today);
      var flipped := MarkOverdue(accounts[i], today);
      overdue := overdue + flipped;
    }
    assert book[..|book|] == book;
    assert BookOf(accounts) == aged;
  }

  /** One run: bill every account that has entries, then age all their statements, old and new. */
  method CloseBillingCycles(accounts: seq<CreditAccount>, today: Day) returns (created: nat, overdue: nat)
    requires AllDifferent(accounts)
    modifies accounts`statements
    ensures BookOf(accounts) == AllAged(AllClosed(old(BookOf(accounts)), today), today)
    ensures StatementCount(AllClosed(old(BookOf(accounts)), today)) == StatementCount(old(BookOf(accounts))) + created
    ensures overdue == PastDueIn(AllClosed(old(BookOf(accounts)), today), today)
  {
    created := CloseAll(accounts, today);
    overdue := AgeAll(accounts, today);
  }
}
