/**
 Which statements exist must not depend on when the cron happened to run. This module compares
 any schedule of capped, restarted runs (interleaved with postings, ageing and statement
 payments) with a single uncapped run.
 */
module BillingSchedule {
  import opened Common
  import opened Calendar
  import opened CreditLedger
  import opened Billing

  /** The part of a statement that nothing changes once it is cut. */
  function Billed(s: Statement): Statement {
    s.(payments := 0, status := Open)
  }

  function BilledAll(statements: seq<Statement>): (r: seq<Statement>)
    ensures |r| == |statements|
    ensures forall i | 0 <= i < |r| :: r[i] == Billed(statements[i])
  {
    seq(|statements|, i requires 0 <= i < |statements| => Billed(statements[i]))
  }

  /** One uncapped run over the whole history. */
  function Full(entries: seq<Entry>, cycle: Cycle, today: Day): seq<Statement> {
    if entries == [] then [] else Bill(entries, cycle, entries[0].date, 0, today)
  }

  /* ---- One walk over the calendar ---- */

  lemma {:induction false} BillMonotone(entries: seq<Entry>, cycle: Cycle, cursor: Day, opening: int, t: Day, later: Day)
    requires t <= later
    ensures Bill(entries, cycle, cursor, opening, t) <= Bill(entries, cycle, cursor, opening, later)
    decreases t - cursor
  {
    hide Calendar.WindowAfter, Made, Carried, Bill;
    var w := WindowAfter(cycle, cursor);
    if w.end < t {
      BillVisit(entries, cycle, cursor, opening, t);
      BillVisit(entries, cycle, cursor, opening, later);
      BillMonotone(entries, cycle, w.end + 1, Carried(entries, cycle, cursor, opening), t, later);
    } else {
      BillDone(entries, cycle, cursor, opening, t);
    }
  }

  lemma {:induction false} SumsIgnoreOutside(entries: seq<Entry>, more: seq<Entry>, w: Window)
    requires forall x | x in more :: !w.Contains(x.date)
    ensures SumsIn(entries + more, w) == SumsIn(entries, w)
  {
    if more == [] {
      assert entries + more == entries;
    } else {
      assert (entries + more)[..|entries + more| - 1] == entries + more[..|more| - 1];
      SumsIgnoreOutside(entries, more[..|more| - 1], w);
    }
  }

  /** Closed windows are frozen: entries dated on or after the run's day change nothing. */
  lemma {:induction false} BillIgnoresLater(entries: seq<Entry>, more: seq<Entry>, cycle: Cycle, cursor: Day, opening: int, today: Day)
    requires forall x | x in more :: x.date >= today
    ensures Bill(entries + more, cycle, cursor, opening, today) == Bill(entries, cycle, cursor, opening, today)
    decreases today - cursor
  {
    hide Calendar.WindowAfter, Made, Carried, Bill;
    var w := WindowAfter(cycle, cursor);
    if w.end < today {
      BillVisit(entries, cycle, cursor, opening, today);
      BillVisit(entries + more, cycle, cursor, opening, today);
      SumsIgnoreOutside(entries, more, w);
      MadeFromSums(entries + more, entries, cycle, cursor, opening);
      BillIgnoresLater(entries, more, cycle, w.end + 1, Carried(entries, cycle, cursor, opening), today);
    } else {
      BillDone(entries, cycle, cursor, opening, today);
      BillDone(entries + more, cycle, cursor, opening, today);
    }
  }

  /** An entry dated before the cursor is never seen again. */
  lemma {:induction false} BillIgnoresEarlier(entries: seq<Entry>, x: Entry, cycle: Cycle, cursor: Day, opening: int, today: Day)
    requires x.date < WindowAfter(cycle, cursor).start
    ensures Bill(entries + [x], cycle, cursor, opening, today) == Bill(entries, cycle, cursor, opening, today)
    decreases today - cursor
  {
    hide Calendar.WindowAfter, Made, Carried, Bill;
    var w := WindowAfter(cycle, cursor);
    if w.end < today {
      BillVisit(entries, cycle, cursor, opening, today);
      BillVisit(entries + [x], cycle, cursor, opening, today);
      SumsIgnoreOutside(entries, [x], w);
      MadeFromSums(entries + [x], entries, cycle, cursor, opening);
      WindowOfMember(cycle, cursor, cursor);
      NextWindowStarts(cycle, cursor);
      BillIgnoresEarlier(entries, x, cycle, w.end + 1, Carried(entries, cycle, cursor, opening), today);
    } else {
      BillDone(entries, cycle, cursor, opening, today);
      BillDone(entries + [x], cycle, cursor, opening, today);
    }
  }

  predicate EndsIncrease(s: seq<Statement>) {
    forall i, j | 0 <= i < j < |s| :: s[i].end < s[j].end
  }

  lemma {:induction false} BillEnds(entries: seq<Entry>, cycle: Cycle, cursor: Day, opening: int, today: Day)
    ensures var bills := Bill(entries, cycle, cursor, opening, today);
            EndsIncrease(bills) && forall s | s in bills :: cursor <= s.end < today
    decreases today - cursor
  {
    hide Calendar.WindowAfter, Made, Carried, Bill;
    var w := WindowAfter(cycle, cursor);
    if w.end < today {
      BillVisit(entries, cycle, cursor, opening, today);
      MadeShape(entries, cycle, cursor, opening);
      BillEnds(entries, cycle, w.end + 1, Carried(entries, cycle, cursor, opening), today);
    } else {
      BillDone(entries, cycle, cursor, opening, today);
    }
  }

  /** Where a walk stands after its k-th statement, for a day that may lie before or after it. */
  predicate Resumes(bills: seq<Statement>, k: nat, whole: seq<Statement>, rest: seq<Statement>, today: Day)
    requires 0 < k <= |bills|
  {
    if bills[k - 1].end < today then whole == bills[..k] + rest else rest == [] && |whole| < k
  }

  lemma ResumesBehind(made: seq<Statement>, bills: seq<Statement>, k: nat, whole: seq<Statement>, rest: seq<Statement>, today: Day)
    requires 0 < k <= |bills| && Resumes(bills, k, whole, rest, today)
    ensures (made + bills)[|made| + k - 1] == bills[k - 1]
    ensures Resumes(made + bills, |made| + k, made + whole, rest, today)
  {
    assert (made + bills)[..|made| + k] == made + bills[..k];
    assert made + (bills[..k] + rest) == (made + bills[..k]) + rest;
  }

  lemma ResumeAtFirst(entries: seq<Entry>, cycle: Cycle, cursor: Day, opening: int, t: Day, today: Day)
    requires WindowAfter(cycle, cursor).end < t && Made(entries, cycle, cursor, opening) != []
    ensures var bills := Bill(entries, cycle, cursor, opening, t);
            bills != []
            && Resumes(bills, 1, Bill(entries, cycle, cursor, opening, today),
                       Bill(entries, cycle, bills[0].end + 1, bills[0].closing, today), today)
  {
    hide Calendar.WindowAfter, Made, Carried, Bill;
    var w := WindowAfter(cycle, cursor);
    BillVisit(entries, cycle, cursor, opening, t);
    MadeShape(entries, cycle, cursor, opening);
    var made, carried := Made(entries, cycle, cursor, opening), Carried(entries, cycle, cursor, opening);
    assert Bill(entries, cycle, cursor, opening, t)[..1] == made;
    if w.end < today {
      BillVisit(entries, cycle, cursor, opening, today);
    } else {
      BillDone(entries, cycle, cursor, opening, today);
      WindowOfMember(cycle, w.end + 1, w.end + 1);
      BillDone(entries, cycle, w.end + 1, carried, today);
    }
  }

  /** For a day before the first window is over, the walk makes nothing, and nothing is left to make later in it. */
  lemma ResumeTooEarly(made: seq<Statement>, next: seq<Statement>, k: nat, whole: seq<Statement>, rest: seq<Statement>, today: Day)
    requires 0 < k <= |next| && Resumes(next, k, whole, rest, today) && next[k - 1].end >= today
    ensures Resumes(made + next, |made| + k, [], rest, today)
  {
  }

  /**
   Restarting after any statement of a walk continues that walk: on any later or earlier day
   the rest is what the uninterrupted walk would still produce.
   */
  lemma {:induction false} Resume(entries: seq<Entry>, cycle: Cycle, cursor: Day, opening: int, t: Day, k: nat, today: Day)
    requires 0 < k <= |Bill(entries, cycle, cursor, opening, t)|
    ensures var bills := Bill(entries, cycle, cursor, opening, t);
            var last := bills[k - 1];
            Resumes(bills, k, Bill(entries, cycle, cursor, opening, today),
                    Bill(entries, cycle, last.end + 1, last.closing, today), today)
    decreases t - cursor
  {
    hide Calendar.WindowAfter, Made, Carried, Bill, Resumes;
    var w := WindowAfter(cycle, cursor);
    if w.end >= t {
      BillDone(entries, cycle, cursor, opening, t);
    } else {
      var made, carried := Made(entries, cycle, cursor, opening), Carried(entries, cycle, cursor, opening);
      var next := Bill(entries, cycle, w.end + 1, carried, t);
      BillVisit(entries, cycle, cursor, opening, t);
      MadeShape(entries, cycle, cursor, opening);
      if k == |made| {
        ResumeAtFirst(entries, cycle, cursor, opening, t, today);
      } else {
        var last := next[k - |made| - 1];
        var whole, rest := Bill(entries, cycle, w.end + 1, carried, today), Bill(entries, cycle, last.end + 1, last.closing, today);
        Resume(entries, cycle, w.end + 1, carried, t, k - |made|, today);
        assert (made + next)[k - 1] == last;
        if w.end < today {
          BillVisit(entries, cycle, cursor, opening, today);
          ResumesBehind(made, next, k - |made|, whole, rest, today);
        } else {
          BillDone(entries, cycle, cursor, opening, today);
          BillEnds(entries, cycle, w.end + 1, carried, t);
          assert last in next;
          ResumeTooEarly(made, next, k - |made|, whole, rest, today);
        }
      }
    }
  }

  lemma LatestIsLast(s: seq<Statement>)
    requires s != [] && EndsIncrease(s)
    ensures Latest(s) == s[|s| - 1]
  {
  }

  /* ---- Runs ---- */

  /** The account's history: its ledger, its statements, and the latest day the cron ran. */
  datatype History = History(entries: seq<Entry>, statements: seq<Statement>, clock: Day)

  const NEW_ACCOUNT := History([], [], 1)

  datatype Event =
    | Posting(added: seq<Entry>)
    | CronRun(today: Day)
    | Ageing(today: Day)
    | StatementPayment(index: nat, amount: int)

  /** A payment against one statement: marks it paid once covered. */
  function Credited(s: Statement, amount: int): Statement {
    var payments := s.payments + amount;
    s.(payments := payments, status := if payments >= s.closing then Paid else s.status)
  }

  function Apply(h: History, cycle: Cycle, e: Event): History {
    match e
    case Posting(added) => h.(entries := h.entries + added)
    case CronRun(today) =>
      h.(statements := h.statements + Capped(Due(h.entries, h.statements, cycle, today)), clock := Max(h.clock, today))
    case Ageing(today) => h.(statements := Aged(h.statements, today))
    case StatementPayment(index, amount) =>
      if index < |h.statements|
      then h.(statements := h.statements[index := Credited(h.statements[index], amount)])
      else h
  }

  function After(h: History, cycle: Cycle, events: seq<Event>): History {
    if events == [] then h else Apply(After(h, cycle, events[..|events| - 1]), cycle, events[|events| - 1])
  }

  /** Dates never go backwards: an entry is not dated before an earlier entry or an earlier run. */
  predicate InOrder(h: History, e: Event) {
    match e
    case Posting(added) => DatesSorted(h.entries + added) && forall x | x in added :: x.date >= h.clock
    case _ => true
  }

  predicate AllInOrder(h: History, cycle: Cycle, events: seq<Event>) {
    events == []
    || (AllInOrder(h, cycle, events[..|events| - 1])
        && InOrder(After(h, cycle, events[..|events| - 1]), events[|events| - 1]))
  }

  /** What exists is a beginning of what one uncapped run at the latest run's day would make. */
  predicate OnTrack(h: History, cycle: Cycle) {
    BilledAll(h.statements) <= BilledAll(Full(h.entries, cycle, h.clock))
  }

  lemma FullIgnoresLater(entries: seq<Entry>, more: seq<Entry>, cycle: Cycle, today: Day)
    requires forall x | x in more :: x.date >= today
    ensures Full(entries + more, cycle, today) == Full(entries, cycle, today)
  {
    if entries == [] {
      assert entries + more == more;
      if more != [] {
        assert more[0] in more;
        WindowOfMember(cycle, more[0].date, more[0].date);
        BillDone(more, cycle, more[0].date, 0, today);
      }
    } else {
      BillIgnoresLater(entries, more, cycle, entries[0].date, 0, today);
    }
  }

  /** On track, the last statement is the one the uncapped run has in that place. */
  lemma LatestOnTrack(h: History, cycle: Cycle)
    requires OnTrack(h, cycle) && h.statements != []
    ensures h.entries != [] && |h.statements| <= |Full(h.entries, cycle, h.clock)|
    ensures Billed(Latest(h.statements)) == Billed(Full(h.entries, cycle, h.clock)[|h.statements| - 1])
  {
    hide Bill, Latest;
    var reference := Full(h.entries, cycle, h.clock);
    assert |BilledAll(h.statements)| <= |BilledAll(reference)|;
    BillEnds(h.entries, cycle, h.entries[0].date, 0, h.clock);
    forall i | 0 <= i < |h.statements|
      ensures Billed(h.statements[i]) == Billed(reference[i])
    {
      assert BilledAll(h.statements)[i] == BilledAll(reference)[i];
    }
    forall i, j | 0 <= i < j < |h.statements|
      ensures h.statements[i].end < h.statements[j].end
    {
      assert Billed(h.statements[i]) == Billed(reference[i]);
      assert Billed(h.statements[j]) == Billed(reference[j]);
    }
    LatestIsLast(h.statements);
  }

  /** What a run finds to do, from any point the schedule can have reached. */
  lemma DueOnTrack(h: History, cycle: Cycle, today: Day)
    requires OnTrack(h, cycle)
    ensures var n, full := |h.statements|, Full(h.entries, cycle, today);
            var due := Due(h.entries, h.statements, cycle, today);
            && (if |full| < n then due == [] else due == full[n..])
            && (|full| >= n ==> BilledAll(h.statements) == BilledAll(full[..n]))
  {
    hide Bill, Latest;
    var n, full := |h.statements|, Full(h.entries, cycle, today);
    if n > 0 {
      var reference := Full(h.entries, cycle, h.clock);
      LatestOnTrack(h, cycle);
      Resume(h.entries, cycle, h.entries[0].date, 0, h.clock, n, today);
      if reference[n - 1].end < today {
        assert full[..n] == reference[..n] && full[n..] == full[|reference[..n]|..];
        assert BilledAll(reference)[..n] == BilledAll(reference[..n]);
      }
    }
  }

  /** The statements of a walk after the first n, as many as one run may create. */
  function NextOf(walk: seq<Statement>, n: nat): seq<Statement> {
    if n <= |walk| then walk[n..Min(n + MAX_WINDOWS_PER_RUN, |walk|)] else []
  }

  /** A run leaves what exists as it stands and adds the next statements of the uncapped walk, as cut. */
  lemma RunAdds(h: History, cycle: Cycle, today: Day)
    requires OnTrack(h, cycle)
    ensures var r, full := Apply(h, cycle, CronRun(today)), Full(h.entries, cycle, today);
            && r.entries == h.entries && r.clock == Max(h.clock, today)
            && r.statements == h.statements + NextOf(full, |h.statements|)
  {
    hide Bill, Full, Due, BilledAll;
    DueOnTrack(h, cycle, today);
    var full := Full(h.entries, cycle, today);
    var n := |h.statements|;
    if n <= |full| {
      var m := Min(MAX_WINDOWS_PER_RUN, |full| - n);
      assert full[n..][..m] == full[n..n + m];
    }
  }

  /** Whatever day a run is made for, what exists after it is still a beginning of the uncapped walk. */
  lemma RunKeepsOnTrack(h: History, cycle: Cycle, today: Day)
    requires OnTrack(h, cycle)
    ensures var r, full := Apply(h, cycle, CronRun(today)), Full(h.entries, cycle, today);
            && OnTrack(r, cycle) && r.entries == h.entries && r.clock == Max(h.clock, today)
            && |r.statements| == Max(|h.statements|, Min(|h.statements| + MAX_WINDOWS_PER_RUN, |full|))
            && r.statements == h.statements + NextOf(full, |h.statements|)
  {
    hide Bill, Apply, NextOf, BilledAll;
    RunAdds(h, cycle, today);
    var r, full := Apply(h, cycle, CronRun(today)), Full(h.entries, cycle, today);
    if h.entries != [] {
      BillMonotone(h.entries, cycle, h.entries[0].date, 0, today, r.clock);
      BillMonotone(h.entries, cycle, h.entries[0].date, 0, h.clock, r.clock);
    }
    NextStatements(h.statements, Full(h.entries, cycle, h.clock), full, Full(h.entries, cycle, r.clock));
  }

  /** Adding the next statements of a walk to a beginning of it, both walks having a common continuation. */
  lemma NextStatements(kept: seq<Statement>, was: seq<Statement>, walk: seq<Statement>, reference: seq<Statement>)
    requires BilledAll(kept) <= BilledAll(was) && was <= reference && walk <= reference
    ensures var r := kept + NextOf(walk, |kept|);
            && BilledAll(r) <= BilledAll(reference)
            && |r| == Max(|kept|, Min(|kept| + MAX_WINDOWS_PER_RUN, |walk|))
  {
    hide Billed;
    var r, n := kept + NextOf(walk, |kept|), |kept|;
    assert n == |BilledAll(kept)| <= |BilledAll(was)|;
    forall i | 0 <= i < |r|
      ensures i < |reference| && BilledAll(r)[i] == BilledAll(reference)[i]
    {
      if i < n {
        assert BilledAll(kept)[i] == BilledAll(was)[i];
        assert r[i] == kept[i] && reference[i] == was[i];
      } else {
        assert r[i] == walk[i] == reference[i];
      }
    }
  }

  lemma StepKeepsOnTrack(h: History, cycle: Cycle, e: Event)
    requires OnTrack(h, cycle) && InOrder(h, e)
    ensures OnTrack(Apply(h, cycle, e), cycle)
  {
    hide Bill;
    match e
    case Posting(added) => FullIgnoresLater(h.entries, added, cycle, h.clock);
    case CronRun(today) => RunKeepsOnTrack(h, cycle, today);
    case Ageing(today) => assert BilledAll(Aged(h.statements, today)) == BilledAll(h.statements);
    case StatementPayment(index, amount) =>
      assert BilledAll(Apply(h, cycle, e).statements) == BilledAll(h.statements);
  }

  /** Every schedule, whatever its runs, stays a beginning of the one uncapped run. */
  lemma {:induction false} AnyScheduleOnTrack(cycle: Cycle, events: seq<Event>)
    requires AllInOrder(NEW_ACCOUNT, cycle, events)
    ensures OnTrack(After(NEW_ACCOUNT, cycle, events), cycle)
  {
    hide Full;
    if events != [] {
      AnyScheduleOnTrack(cycle, events[..|events| - 1]);
      StepKeepsOnTrack(After(NEW_ACCOUNT, cycle, events[..|events| - 1]), cycle, events[|events| - 1]);
    }
  }

  /* ---- What payments and ageing leave of a statement ---- */

  /** What was credited to the i-th statement since it exists. */
  function CreditedTo(cycle: Cycle, events: seq<Event>, i: nat): int {
    if events == [] then 0
    else
      var before, last := events[..|events| - 1], events[|events| - 1];
      CreditedTo(cycle, before, i)
      + if last.StatementPayment? && last.index == i && i < |After(NEW_ACCOUNT, cycle, before).statements| then last.amount else 0
  }

  /** Some payment against the i-th statement, cut as given, brought its payments to its closing balance. */
  predicate Covered(cut: Statement, cycle: Cycle, events: seq<Event>, i: nat) {
    events != []
    && var before, last := events[..|events| - 1], events[|events| - 1];
       || Covered(cut, cycle, before, i)
       || (last.StatementPayment? && last.index == i && i < |After(NEW_ACCOUNT, cycle, before).statements|
           && cut.payments + CreditedTo(cycle, events, i) >= cut.closing)
  }

  /** The book was aged after the due date, with the i-th statement in it. */
  predicate AgedPastDue(cut: Statement, cycle: Cycle, events: seq<Event>, i: nat) {
    events != []
    && var before, last := events[..|events| - 1], events[|events| - 1];
       || AgedPastDue(cut, cycle, before, i)
       || (last.Ageing? && cut.dueDate < last.today && i < |After(NEW_ACCOUNT, cycle, before).statements|)
  }

  /** The i-th statement as it stands: paid once nothing was owed or it was covered, else overdue once aged. */
  function Standing(cut: Statement, cycle: Cycle, events: seq<Event>, i: nat): Statement {
    cut.(payments := cut.payments + CreditedTo(cycle, events, i),
         status := if cut.closing <= 0 || Covered(cut, cycle, events, i) then Paid
                   else if AgedPastDue(cut, cycle, events, i) then Overdue
                   else Open)
  }

  /** The stored statements are the first of a walk, each as the events since it was cut left it. */
  predicate Stand(statements: seq<Statement>, walk: seq<Statement>, cycle: Cycle, events: seq<Event>) {
    |statements| <= |walk| && forall i | 0 <= i < |statements| :: statements[i] == Standing(walk[i], cycle, events, i)
  }

  lemma MadeStatus(entries: seq<Entry>, cycle: Cycle, cursor: Day, opening: int)
    ensures forall s | s in Made(entries, cycle, cursor, opening) :: s.status == if s.closing <= 0 then Paid else Open
  {
    hide Calendar.WindowAfter, SumsIn, ClosingOf;
  }

  lemma {:induction false} BillStatus(entries: seq<Entry>, cycle: Cycle, cursor: Day, opening: int, today: Day)
    ensures forall s | s in Bill(entries, cycle, cursor, opening, today) :: s.status == if s.closing <= 0 then Paid else Open
    decreases today - cursor
  {
    hide Calendar.WindowAfter, Made, Carried, Bill;
    var w := WindowAfter(cycle, cursor);
    if w.end < today {
      BillVisit(entries, cycle, cursor, opening, today);
      MadeStatus(entries, cycle, cursor, opening);
      BillStatus(entries, cycle, w.end + 1, Carried(entries, cycle, cursor, opening), today);
    } else {
      BillDone(entries, cycle, cursor, opening, today);
    }
  }

  lemma StatementsOnlyGrow(h: History, cycle: Cycle, e: Event)
    ensures |h.statements| <= |Apply(h, cycle, e).statements|
  {
    hide Due, Capped;
  }

  /** Nothing happens to a statement before it exists. */
  lemma {:induction false} UntouchedBefore(cut: Statement, cycle: Cycle, events: seq<Event>, i: nat)
    requires |After(NEW_ACCOUNT, cycle, events).statements| <= i
    ensures CreditedTo(cycle, events, i) == 0 && !Covered(cut, cycle, events, i) && !AgedPastDue(cut, cycle, events, i)
  {
    if events != [] {
      hide Apply;
      StatementsOnlyGrow(After(NEW_ACCOUNT, cycle, events[..|events| - 1]), cycle, events[|events| - 1]);
      UntouchedBefore(cut, cycle, events[..|events| - 1], i);
    }
  }

  /** One event changes one statement as the closed form says. */
  lemma StandingStep(cut: Statement, cycle: Cycle, events: seq<Event>, i: nat)
    requires events != [] && i < |After(NEW_ACCOUNT, cycle, events[..|events| - 1]).statements|
    ensures var s := Standing(cut, cycle, events[..|events| - 1], i);
            Standing(cut, cycle, events, i) ==
              match events[|events| - 1]
              case Ageing(today) => if PastDue(s, today) then s.(status := Overdue) else s
              case StatementPayment(index, amount) => if index == i then Credited(s, amount) else s
              case _ => s
  {
    hide After;
  }

  /** A statement just cut stands as it was cut. */
  lemma StandingWhenCut(cut: Statement, cycle: Cycle, events: seq<Event>, today: Day, i: nat)
    requires events != [] && events[|events| - 1] == CronRun(today)
    requires |After(NEW_ACCOUNT, cycle, events[..|events| - 1]).statements| <= i
    requires cut.status == if cut.closing <= 0 then Paid else Open
    ensures Standing(cut, cycle, events, i) == cut
  {
    hide After;
    UntouchedBefore(cut, cycle, events[..|events| - 1], i);
  }

  /**
   After every schedule the stored statements are exactly a beginning of the one uncapped run,
   each with what was credited to it since and the status that payments and ageing gave it.
   */
  lemma {:induction false} AnyScheduleStands(cycle: Cycle, events: seq<Event>)
    requires AllInOrder(NEW_ACCOUNT, cycle, events)
    ensures var h := After(NEW_ACCOUNT, cycle, events);
            OnTrack(h, cycle) && Stand(h.statements, Full(h.entries, cycle, h.clock), cycle, events)
  {
    hide Full, Standing, Due, Capped;
    AnyScheduleOnTrack(cycle, events);
    if events != [] {
      var before, last := events[..|events| - 1], events[|events| - 1];
      var g, h := After(NEW_ACCOUNT, cycle, before), After(NEW_ACCOUNT, cycle, events);
      AnyScheduleStands(cycle, before);
      match last
      case Posting(added) => FullIgnoresLater(g.entries, added, cycle, g.clock); StandsAfter(cycle, events);
      case CronRun(today) => StandsAfterRun(cycle, events, today);
      case Ageing(today) => StandsAfter(cycle, events);
      case StatementPayment(index, amount) => StandsAfter(cycle, events);
    }
  }

  /** Events that cut nothing. */
  lemma StandsAfter(cycle: Cycle, events: seq<Event>)
    requires events != [] && !events[|events| - 1].CronRun?
    requires var g, h := After(NEW_ACCOUNT, cycle, events[..|events| - 1]), After(NEW_ACCOUNT, cycle, events);
             && Full(h.entries, cycle, h.clock) == Full(g.entries, cycle, g.clock)
             && Stand(g.statements, Full(g.entries, cycle, g.clock), cycle, events[..|events| - 1])
    ensures var h := After(NEW_ACCOUNT, cycle, events); Stand(h.statements, Full(h.entries, cycle, h.clock), cycle, events)
  {
    hide Full, Standing, After, PastDue;
    var before := events[..|events| - 1];
    var g, h := After(NEW_ACCOUNT, cycle, before), After(NEW_ACCOUNT, cycle, events);
    var full := Full(g.entries, cycle, g.clock);
    AfterLast(cycle, events);
    forall i | 0 <= i < |h.statements|
      ensures h.statements[i] == Standing(full[i], cycle, events, i)
    {
      StandingStep(full[i], cycle, events, i);
    }
  }

  lemma AfterLast(cycle: Cycle, events: seq<Event>)
    requires events != []
    ensures After(NEW_ACCOUNT, cycle, events)
         == Apply(After(NEW_ACCOUNT, cycle, events[..|events| - 1]), cycle, events[|events| - 1])
  {
    hide Apply;
  }

  lemma StandsAfterRun(cycle: Cycle, events: seq<Event>, today: Day)
    requires events != [] && events[|events| - 1] == CronRun(today)
    requires var g := After(NEW_ACCOUNT, cycle, events[..|events| - 1]);
             OnTrack(g, cycle) && Stand(g.statements, Full(g.entries, cycle, g.clock), cycle, events[..|events| - 1])
    ensures var h := After(NEW_ACCOUNT, cycle, events); Stand(h.statements, Full(h.entries, cycle, h.clock), cycle, events)
  {
    hide Bill, Standing, After, Due, Capped, OnTrack;
    var before := events[..|events| - 1];
    var g, h := After(NEW_ACCOUNT, cycle, before), After(NEW_ACCOUNT, cycle, events);
    AfterLast(cycle, events);
    RunKeepsOnTrack(g, cycle, today);
    var was, full, now := Full(g.entries, cycle, g.clock), Full(g.entries, cycle, today), Full(g.entries, cycle, h.clock);
    if g.entries != [] {
      BillMonotone(g.entries, cycle, g.entries[0].date, 0, g.clock, h.clock);
      BillMonotone(g.entries, cycle, g.entries[0].date, 0, today, h.clock);
      BillStatus(g.entries, cycle, g.entries[0].date, 0, today);
    }
    forall i | 0 <= i < |h.statements|
      ensures i < |now| && h.statements[i] == Standing(now[i], cycle, events, i)
    {
      if i < |g.statements| {
        assert now[i] == was[i];
        StandingStep(was[i], cycle, events, i);
      } else {
        assert now[i] == full[i] && full[i] in full;
        StandingWhenCut(full[i], cycle, events, today, i);
      }
    }
  }

  predicate CutsOnly(events: seq<Event>) {
    forall e | e in events :: e.Posting? || e.CronRun?
  }

  lemma {:induction false} NothingMoved(cut: Statement, cycle: Cycle, events: seq<Event>, i: nat)
    requires CutsOnly(events)
    ensures CreditedTo(cycle, events, i) == 0 && !Covered(cut, cycle, events, i) && !AgedPastDue(cut, cycle, events, i)
  {
    if events != [] {
      hide After;
      assert events == events[..|events| - 1] + [events[|events| - 1]];
      assert events[|events| - 1] in events;
      NothingMoved(cut, cycle, events[..|events| - 1], i);
    }
  }

  /** With postings and runs alone, the statements are a beginning of the uncapped run, to the last column. */
  lemma CutsArePrefix(cycle: Cycle, events: seq<Event>)
    requires AllInOrder(NEW_ACCOUNT, cycle, events) && CutsOnly(events)
    ensures var h := After(NEW_ACCOUNT, cycle, events); h.statements <= Full(h.entries, cycle, h.clock)
  {
    hide Bill, After, AllInOrder, OnTrack, CutsOnly;
    AnyScheduleStands(cycle, events);
    var h := After(NEW_ACCOUNT, cycle, events);
    var full := Full(h.entries, cycle, h.clock);
    if h.entries != [] {
      BillStatus(h.entries, cycle, h.entries[0].date, 0, h.clock);
    }
    forall i | 0 <= i < |h.statements|
      ensures h.statements[i] == full[i]
    {
      assert full[i] in full;
      NothingMoved(full[i], cycle, events, i);
    }
  }

  /**
   Schedule independence: a run on the latest day creates nothing exactly when the statements are
   all those of one uncapped run that day, each as payments and ageing left it, however and
   whenever the earlier runs came; and without payments and ageing they are that run's, exactly.
   */
  lemma ScheduleIndependence(cycle: Cycle, events: seq<Event>, today: Day)
    requires AllInOrder(NEW_ACCOUNT, cycle, events)
    requires today >= After(NEW_ACCOUNT, cycle, events).clock
    ensures var h := After(NEW_ACCOUNT, cycle, events);
            var full := Full(h.entries, cycle, today);
            && Stand(h.statements, full, cycle, events)
            && (Apply(h, cycle, CronRun(today)).statements == h.statements <==> |h.statements| == |full|)
            && (CutsOnly(events) ==> (Apply(h, cycle, CronRun(today)).statements == h.statements <==> h.statements == full))
  {
    hide Bill, After, AllInOrder, OnTrack, CutsOnly, Standing, Apply;
    AnyScheduleStands(cycle, events);
    var h := After(NEW_ACCOUNT, cycle, events);
    RunKeepsOnTrack(h, cycle, today);
    if h.entries != [] {
      BillMonotone(h.entries, cycle, h.entries[0].date, 0, h.clock, today);
    }
    if CutsOnly(events) {
      CutsArePrefix(cycle, events);
    }
  }

  function Repeated(h: History, cycle: Cycle, today: Day, n: nat): History {
    if n == 0 then h else Apply(Repeated(h, cycle, today, n - 1), cycle, CronRun(today))
  }

  /** Repeating the run reaches the uncapped result, 24 statements a time, and then stays there. */
  lemma {:induction false} RepeatsConverge(h: History, cycle: Cycle, today: Day, n: nat)
    requires OnTrack(h, cycle) && today >= h.clock
    ensures var r := Repeated(h, cycle, today, n);
            var full := Full(h.entries, cycle, today);
            && OnTrack(r, cycle) && r.entries == h.entries && today >= r.clock
            && |h.statements| <= |full|
            && |r.statements| == Min(|h.statements| + n * MAX_WINDOWS_PER_RUN, |full|)
            && r.statements == h.statements + full[|h.statements|..|r.statements|]
  {
    hide Bill, Due, Capped, BilledAll;
    if n == 0 {
      if h.entries != [] {
        BillMonotone(h.entries, cycle, h.entries[0].date, 0, h.clock, today);
      }
    } else {
      RepeatsConverge(h, cycle, today, n - 1);
      RunKeepsOnTrack(Repeated(h, cycle, today, n - 1), cycle, today);
    }
  }

  /** Why dates must not go backwards: an entry dated inside a billed window is never billed. */
  lemma LateEntryIsNeverBilled(h: History, cycle: Cycle, x: Entry, today: Day)
    requires h.statements != []
    requires WindowAfter(cycle, Latest(h.statements).end).end == Latest(h.statements).end
    requires x.date <= Latest(h.statements).end
    ensures Due(h.entries + [x], h.statements, cycle, today) == Due(h.entries, h.statements, cycle, today)
  {
    hide Bill, Latest, Calendar.WindowAfter;
    var last := Latest(h.statements);
    NextWindowStarts(cycle, last.end);
    BillIgnoresEarlier(h.entries, x, cycle, last.end + 1, last.closing, today);
  }
}
