/** The running statement of one account, and how statements of neighbouring periods join. */
module AccountLedger {
  import opened Common
  import opened Journal
  import opened JournalReports

  datatype Row = Row(entry: nat, date: Date, debit: int, credit: int, balance: int)

  datatype Statement = Statement(opening: int, rows: seq<Row>, closing: int)

  /* ---- Date order, ties in the order written ---- */

  predicate ByDate(s: seq<PostedLine>) {
    forall i, j | 0 <= i < j < |s| :: s[i].date <= s[j].date
  }

  function InsertLate(s: seq<PostedLine>, p: PostedLine): (r: seq<PostedLine>)
    ensures |r| == |s| + 1
    ensures forall x :: x in r <==> x in s || x == p
  {
    if s == [] then [p]
    else
      var last := s[|s| - 1];
      assert s == s[..|s| - 1] + [last];
      if last.date <= p.date then s + [p] else InsertLate(s[..|s| - 1], p) + [last]
  }

  /** order_by(entry date, entry id, line id), of lines already in id order. */
  function Ordered(s: seq<PostedLine>): seq<PostedLine> {
    if s == [] then [] else InsertLate(Ordered(s[..|s| - 1]), s[|s| - 1])
  }

  lemma {:induction false} InsertKeepsByDate(s: seq<PostedLine>, p: PostedLine)
    requires ByDate(s)
    ensures ByDate(InsertLate(s, p))
  {
    if s != [] && s[|s| - 1].date > p.date {
      var last, before := s[|s| - 1], s[..|s| - 1];
      InsertKeepsByDate(before, p);
      var r := InsertLate(before, p);
      forall i | 0 <= i < |r|
        ensures r[i].date <= last.date
      {
        assert r[i] in r;
        assert r[i] in before || r[i] == p;
      }
    }
  }

  lemma {:induction false} OrderedIsByDate(s: seq<PostedLine>)
    ensures ByDate(Ordered(s))
  {
    if s != [] {
      OrderedIsByDate(s[..|s| - 1]);
      InsertKeepsByDate(Ordered(s[..|s| - 1]), s[|s| - 1]);
    }
  }

  lemma InsertedAtEnd(s: seq<PostedLine>, p: PostedLine)
    requires forall x | x in s :: x.date <= p.date
    ensures InsertLate(s, p) == s + [p]
  {
    if s != [] {
      assert s[|s| - 1] in s;
    }
  }

  lemma InsertedBefore(s: seq<PostedLine>, last: PostedLine, p: PostedLine)
    requires last.date > p.date
    ensures InsertLate(s + [last], p) == InsertLate(s, p) + [last]
  {
    assert (s + [last])[..|s|] == s;
  }

  lemma {:induction false} SelectInserted(s: seq<PostedLine>, p: PostedLine, f: Filter)
    requires ByDate(s)
    ensures Select(InsertLate(s, p), f) == if f.Matches(p) then InsertLate(Select(s, f), p) else Select(s, f)
  {
    hide Filter.Matches, Select, InsertLate;
    if s != [] && s[|s| - 1].date > p.date {
      var last, before := s[|s| - 1], s[..|s| - 1];
      assert s == before + [last];
      SelectInserted(before, p, f);
      InsertedBefore(before, last, p);
      InsertedBefore(Select(before, f), last, p);
      SelectNext(before, last, f);
      SelectNext(InsertLate(before, p), last, f);
    } else {
      forall x | x in s
        ensures x.date <= p.date
      {
        var i :| 0 <= i < |s| && s[i] == x;
        assert i < |s| - 1 ==> s[i].date <= s[|s| - 1].date;
      }
      InsertedAtEnd(s, p);
      InsertedAtEnd(Select(s, f), p);
      SelectNext(s, p, f);
    }
  }

  /** Filtering and ordering commute, so a filtered statement is a part of the whole one. */
  lemma {:induction false} SelectOrdered(s: seq<PostedLine>, f: Filter)
    ensures Select(Ordered(s), f) == Ordered(Select(s, f))
  {
    if s != [] {
      hide Filter.Matches, Select, InsertLate;
      var before, last := s[..|s| - 1], s[|s| - 1];
      assert s == before + [last];
      SelectOrdered(before, f);
      OrderedIsByDate(before);
      SelectInserted(Ordered(before), last, f);
      SelectNext(before, last, f);
      if f.Matches(last) {
        assert Select(s, f)[..|Select(before, f)|] == Select(before, f);
      }
    }
  }

  /* ---- Periods ---- */

  function During(from: Option<Date>, to: Option<Date>, store: Option<StoreId>, code: Code): Filter {
    Filter(from, to, store, Some(code))
  }

  lemma {:induction false} SelectNone(s: seq<PostedLine>, f: Filter)
    requires forall p | p in s :: !f.Matches(p)
    ensures Select(s, f) == []
  {
    if s != [] {
      assert s == s[..|s| - 1] + [s[|s| - 1]];
      SelectNone(s[..|s| - 1], f);
    }
  }

  lemma PeriodOf(p: PostedLine, from: Option<Date>, mid: Date, to: Option<Date>, store: Option<StoreId>, code: Code)
    requires from.Some? ==> from.value <= mid + 1
    requires to.Some? ==> mid <= to.value
    ensures During(from, to, store, code).Matches(p)
       <==> if p.date <= mid then During(from, Some(mid), store, code).Matches(p)
            else During(Some(mid + 1), to, store, code).Matches(p)
    ensures if p.date <= mid then !During(Some(mid + 1), to, store, code).Matches(p)
            else !During(from, Some(mid), store, code).Matches(p)
  {
  }

  /** One more line, at the end of the first part (the second still being empty) or of the second. */
  lemma SplitNext(s: seq<PostedLine>, p: PostedLine, whole: Filter, first: Filter, second: Filter)
    requires Select(s, whole) == Select(s, first) + Select(s, second)
    requires || (Select(s, second) == [] && !second.Matches(p) && (whole.Matches(p) <==> first.Matches(p)))
             || (!first.Matches(p) && (whole.Matches(p) <==> second.Matches(p)))
    ensures Select(s + [p], whole) == Select(s + [p], first) + Select(s + [p], second)
  {
    hide Select, Filter.Matches;
    SelectNext(s, p, whole);
    SelectNext(s, p, first);
    SelectNext(s, p, second);
  }

  lemma NoneAfter(s: seq<PostedLine>, mid: Date, to: Option<Date>, store: Option<StoreId>, code: Code)
    requires forall p | p in s :: p.date <= mid
    ensures Select(s, During(Some(mid + 1), to, store, code)) == []
  {
    hide Select;
    SelectNone(s, During(Some(mid + 1), to, store, code));
  }

  lemma LastIsLatest(s: seq<PostedLine>)
    requires ByDate(s) && s != []
    ensures ByDate(s[..|s| - 1]) && forall p | p in s[..|s| - 1] :: p.date <= s[|s| - 1].date
  {
    var before := s[..|s| - 1];
    forall i | 0 <= i < |before|
      ensures before[i].date <= s[|s| - 1].date
    {
      assert before[i] == s[i];
    }
  }

  /** In date order, a period is its first part followed by the rest. */
  lemma {:induction false} PeriodSplits(s: seq<PostedLine>, from: Option<Date>, mid: Date, to: Option<Date>, store: Option<StoreId>, code: Code)
    requires ByDate(s)
    requires from.Some? ==> from.value <= mid + 1
    requires to.Some? ==> mid <= to.value
    ensures Select(s, During(from, to, store, code))
         == Select(s, During(from, Some(mid), store, code)) + Select(s, During(Some(mid + 1), to, store, code))
  {
    if s != [] {
      hide Select, Filter.Matches, ByDate, During;
      var last, before := s[|s| - 1], s[..|s| - 1];
      assert s == before + [last];
      LastIsLatest(s);
      PeriodSplits(before, from, mid, to, store, code);
      PeriodOf(last, from, mid, to, store, code);
      if last.date <= mid {
        NoneAfter(before, mid, to, store, code);
      }
      SplitNext(before, last, During(from, to, store, code), During(from, Some(mid), store, code), During(Some(mid + 1), to, store, code));
    } else {
      SelectNone(s, During(from, to, store, code));
    }
  }

  /* ---- The running statement ---- */

  function Signed(a: Account, s: seq<PostedLine>): int {
    if s == [] then 0
    else
      var last := s[|s| - 1].line;
      Signed(a, s[..|s| - 1]) + a.Signed(last.debit, last.credit)
  }

  /** One row per line, each with the balance after it. */
  function Running(a: Account, opening: int, s: seq<PostedLine>): seq<Row> {
    if s == [] then []
    else
      var last := s[|s| - 1];
      Running(a, opening, s[..|s| - 1])
      + [Row(last.entry, last.date, last.line.debit, last.line.credit, opening + Signed(a, s))]
  }

  lemma {:induction false} SignedAppend(a: Account, s: seq<PostedLine>, t: seq<PostedLine>)
    ensures Signed(a, s + t) == Signed(a, s) + Signed(a, t)
  {
    if t == [] {
      assert s + t == s;
    } else {
      assert (s + t)[..|s + t| - 1] == s + t[..|t| - 1];
      SignedAppend(a, s, t[..|t| - 1]);
    }
  }

  lemma {:induction false} RunningAppend(a: Account, opening: int, s: seq<PostedLine>, t: seq<PostedLine>)
    ensures Running(a, opening, s + t) == Running(a, opening, s) + Running(a, opening + Signed(a, s), t)
  {
    if t == [] {
      assert s + t == s;
    } else {
      assert (s + t)[..|s + t| - 1] == s + t[..|t| - 1];
      RunningAppend(a, opening, s, t[..|t| - 1]);
      SignedAppend(a, s, t);
    }
  }

  lemma {:induction false} SignedInserted(a: Account, s: seq<PostedLine>, p: PostedLine)
    ensures Signed(a, InsertLate(s, p)) == Signed(a, s) + a.Signed(p.line.debit, p.line.credit)
  {
    if s != [] {
      if s[|s| - 1].date > p.date {
        SignedInserted(a, s[..|s| - 1], p);
        assert InsertLate(s, p)[..|s|] == InsertLate(s[..|s| - 1], p);
      } else {
        assert InsertLate(s, p)[..|s|] == s;
      }
    }
  }

  lemma {:induction false} SignedOrdered(a: Account, s: seq<PostedLine>)
    ensures Signed(a, Ordered(s)) == Signed(a, s)
  {
    if s != [] {
      SignedOrdered(a, s[..|s| - 1]);
      SignedInserted(a, Ordered(s[..|s| - 1]), s[|s| - 1]);
    }
  }

  /** Everything before the first day of the period, or nothing when the period has no first day. */
  function OpeningOf(b: Books, a: Account, from: Option<Date>, store: Option<StoreId>): int {
    if from == None then 0
    else Signed(a, PostedLines(b, During(None, Some(from.value - 1), store, a.code)))
  }

  function LedgerOf(b: Books, a: Account, from: Option<Date>, to: Option<Date>, store: Option<StoreId>): Statement {
    var opening := OpeningOf(b, a, from, store);
    var lines := Ordered(PostedLines(b, During(from, to, store, a.code)));
    Statement(opening, Running(a, opening, lines), opening + Signed(a, lines))
  }

  method AccountLedger(b: Books, a: Account, from: Option<Date>, to: Option<Date>, store: Option<StoreId>)
    returns (s: Statement)
    ensures s == LedgerOf(b, a, from, to, store)
  {
    var lines := Ordered(PostedLines(b, During(from, to, store, a.code)));
    var opening := 0;
    if from.Some? {
      var prior := LinesOf(PostedLines(b, During(None, Some(from.value - 1), store, a.code)));
      opening := a.Signed(DebitSum(prior), CreditSum(prior));
      SignedIsNet(a, PostedLines(b, During(None, Some(from.value - 1), store, a.code)));
    }
    var running := opening;
    var rows: seq<Row> := [];
    for i := 0 to |lines|
      invariant running == opening + Signed(a, lines[..i])
      invariant rows == Running(a, opening, lines[..i])
    {
      assert lines[..i + 1][..i] == lines[..i];
      running := running + a.Signed(lines[i].line.debit, lines[i].line.credit);
      rows := rows + [Row(lines[i].entry, lines[i].date, lines[i].line.debit, lines[i].line.credit, running)];
    }
    assert lines[..|lines|] == lines;
    s := Statement(opening, rows, running);
  }

  /** By date, and within a date in the order the entries were booked. */
  predicate InOrder(s: seq<PostedLine>) {
    forall i, j | 0 <= i < j < |s| :: s[i].date < s[j].date || (s[i].date == s[j].date && s[i].entry <= s[j].entry)
  }

  predicate ById(s: seq<PostedLine>) {
    forall i, j | 0 <= i < j < |s| :: s[i].entry <= s[j].entry
  }

  lemma {:induction false} InsertKeepsOrder(s: seq<PostedLine>, p: PostedLine)
    requires InOrder(s) && forall x | x in s :: x.entry <= p.entry
    ensures InOrder(InsertLate(s, p))
  {
    if s != [] {
      var last, before := s[|s| - 1], s[..|s| - 1];
      assert s == before + [last];
      if last.date > p.date {
        InsertKeepsOrder(before, p);
        var r := InsertLate(before, p);
        forall i | 0 <= i < |r|
          ensures r[i].date < last.date || (r[i].date == last.date && r[i].entry <= last.entry)
        {
          assert r[i] in r;
          assert r[i] in before || r[i] == p;
        }
      } else {
        forall i | 0 <= i < |s|
          ensures s[i].date < p.date || (s[i].date == p.date && s[i].entry <= p.entry)
        {
          assert s[i] in s;
        }
      }
    }
  }

  lemma {:induction false} OrderedInOrder(s: seq<PostedLine>)
    requires ById(s)
    ensures InOrder(Ordered(s))
  {
    if s != [] {
      var before, last := s[..|s| - 1], s[|s| - 1];
      OrderedInOrder(before);
      OrderedKeepsLines(before);
      forall x | x in Ordered(before)
        ensures x.entry <= last.entry
      {
        assert x in multiset(Ordered(before));
        var i :| 0 <= i < |before| && before[i] == x;
        assert s[i].entry <= s[|s| - 1].entry;
      }
      InsertKeepsOrder(Ordered(before), last);
    }
  }

  /** The posted lines of a journal, and any selection of them, are in the order they were written. */
  lemma {:induction false} SelectById(s: seq<PostedLine>, f: Filter)
    requires ById(s)
    ensures ById(Select(s, f))
  {
    if s != [] {
      hide Filter.Matches;
      var before, last := s[..|s| - 1], s[|s| - 1];
      SelectById(before, f);
      forall i | 0 <= i < |Select(before, f)|
        ensures Select(before, f)[i].entry <= last.entry
      {
        assert Select(before, f)[i] in Select(before, f);
        var j :| 0 <= j < |before| && before[j] == Select(before, f)[i];
        assert s[j].entry <= s[|s| - 1].entry;
      }
    }
  }

  lemma {:induction false} PostedById(entries: seq<Entry>)
    ensures ById(AllPosted(entries)) && forall p | p in AllPosted(entries) :: p.entry < |entries|
  {
    if entries != [] {
      PostedById(entries[..|entries| - 1]);
      var before := AllPosted(entries[..|entries| - 1]);
      assert forall i | 0 <= i < |before| :: before[i] in before;
    }
  }

  /** Ordering by date keeps every line, as often as it is there. */
  lemma {:induction false} OrderedKeepsLines(s: seq<PostedLine>)
    ensures multiset(Ordered(s)) == multiset(s) && |Ordered(s)| == |s|
  {
    if s != [] {
      var before, last := s[..|s| - 1], s[|s| - 1];
      assert s == before + [last];
      OrderedKeepsLines(before);
      InsertKeepsLines(Ordered(before), last);
    }
  }

  lemma {:induction false} InsertKeepsLines(s: seq<PostedLine>, p: PostedLine)
    ensures multiset(InsertLate(s, p)) == multiset(s) + multiset{p}
  {
    if s != [] && s[|s| - 1].date > p.date {
      assert s == s[..|s| - 1] + [s[|s| - 1]];
      InsertKeepsLines(s[..|s| - 1], p);
    }
  }

  /** The debit and credit of the first n lines of a list. */
  function DebitUpTo(s: seq<PostedLine>, n: nat): int
    requires n <= |s|
  {
    if n == 0 then 0 else DebitUpTo(s, n - 1) + s[n - 1].line.debit
  }

  function CreditUpTo(s: seq<PostedLine>, n: nat): int
    requires n <= |s|
  {
    if n == 0 then 0 else CreditUpTo(s, n - 1) + s[n - 1].line.credit
  }

  /** The i-th row shows the i-th line, and the opening moved by all lines up to it. */
  predicate ShowsLine(row: Row, a: Account, opening: int, s: seq<PostedLine>, i: nat)
    requires i < |s|
  {
    && row.entry == s[i].entry && row.date == s[i].date
    && row.debit == s[i].line.debit && row.credit == s[i].line.credit
    && row.balance == opening + if a.kind in {Asset, Expense} then DebitUpTo(s, i + 1) - CreditUpTo(s, i + 1)
                                else CreditUpTo(s, i + 1) - DebitUpTo(s, i + 1)
  }

  lemma {:induction false} UpToPrefix(s: seq<PostedLine>, n: nat, m: nat)
    requires n <= m <= |s|
    ensures DebitUpTo(s[..m], n) == DebitUpTo(s, n) && CreditUpTo(s[..m], n) == CreditUpTo(s, n)
  {
    if n > 0 {
      UpToPrefix(s, n - 1, m);
    }
  }

  lemma {:induction false} SignedUpTo(a: Account, s: seq<PostedLine>)
    ensures Signed(a, s) == if a.kind in {Asset, Expense} then DebitUpTo(s, |s|) - CreditUpTo(s, |s|)
                            else CreditUpTo(s, |s|) - DebitUpTo(s, |s|)
  {
    if s != [] {
      SignedUpTo(a, s[..|s| - 1]);
      UpToPrefix(s, |s| - 1, |s| - 1);
    }
  }

  lemma {:induction false} RunningShows(a: Account, opening: int, s: seq<PostedLine>, i: nat)
    requires i < |s|
    ensures |Running(a, opening, s)| == |s| && ShowsLine(Running(a, opening, s)[i], a, opening, s, i)
  {
    var before := s[..|s| - 1];
    RunningLength(a, opening, before);
    if i < |before| {
      RunningShows(a, opening, before, i);
      UpToPrefix(s, i + 1, |s| - 1);
    } else {
      SignedUpTo(a, s);
    }
  }

  lemma {:induction false} RunningLength(a: Account, opening: int, s: seq<PostedLine>)
    ensures |Running(a, opening, s)| == |s|
  {
    if s != [] {
      RunningLength(a, opening, s[..|s| - 1]);
    }
  }

  lemma SelectedInOrder(b: Books, f: Filter)
    ensures InOrder(Ordered(PostedLines(b, f)))
  {
    hide ById, InOrder, Select, AllPosted, Ordered;
    PostedById(b.entries);
    SelectById(AllPosted(b.entries), f);
    OrderedInOrder(PostedLines(b, f));
  }

  /**
   The rows of a statement are the account's posted lines of the period and store, each once, by
   date and then as booked, each with its own columns and the balance after it.
   */
  lemma RowsShowLines(b: Books, a: Account, from: Option<Date>, to: Option<Date>, store: Option<StoreId>)
    ensures var s, lines := LedgerOf(b, a, from, to, store), Ordered(PostedLines(b, During(from, to, store, a.code)));
            && multiset(lines) == multiset(PostedLines(b, Filter(from, to, store, Some(a.code))))
            && InOrder(lines) && |s.rows| == |lines|
            && (forall i | 0 <= i < |s.rows| :: ShowsLine(s.rows[i], a, s.opening, lines, i))
            && s.closing == if s.rows == [] then s.opening else s.rows[|s.rows| - 1].balance
  {
    hide Running, Ordered, PostedLines, OpeningOf, InOrder;
    var s, lines := LedgerOf(b, a, from, to, store), Ordered(PostedLines(b, During(from, to, store, a.code)));
    OrderedKeepsLines(PostedLines(b, During(from, to, store, a.code)));
    SelectedInOrder(b, During(from, to, store, a.code));
    RunningLength(a, s.opening, lines);
    forall i | 0 <= i < |s.rows|
      ensures ShowsLine(s.rows[i], a, s.opening, lines, i)
    {
      RunningShows(a, s.opening, lines, i);
    }
    SignedUpTo(a, lines);
    if lines != [] {
      RunningShows(a, s.opening, lines, |lines| - 1);
    }
  }

  lemma {:induction false} SignedIsNet(a: Account, s: seq<PostedLine>)
    ensures Signed(a, s) == a.Signed(DebitSum(LinesOf(s)), CreditSum(LinesOf(s)))
  {
    if s != [] {
      assert LinesOf(s)[..|s| - 1] == LinesOf(s[..|s| - 1]);
      SignedIsNet(a, s[..|s| - 1]);
    }
  }

  lemma OrderedPeriodSplits(b: Books, a: Account, from: Option<Date>, mid: Date, to: Option<Date>, store: Option<StoreId>)
    requires from.Some? ==> from.value <= mid + 1
    requires to.Some? ==> mid <= to.value
    ensures Ordered(PostedLines(b, During(from, to, store, a.code)))
         == Ordered(PostedLines(b, During(from, Some(mid), store, a.code)))
            + Ordered(PostedLines(b, During(Some(mid + 1), to, store, a.code)))
  {
    hide Select, Ordered, ByDate;
    var all := AllPosted(b.entries);
    OrderedIsByDate(all);
    PeriodSplits(Ordered(all), from, mid, to, store, a.code);
    SelectOrdered(all, During(from, to, store, a.code));
    SelectOrdered(all, During(from, Some(mid), store, a.code));
    SelectOrdered(all, During(Some(mid + 1), to, store, a.code));
  }

  /** A period's closing balance is everything up to its last day, however late it starts. */
  lemma ClosingIgnoresStart(b: Books, a: Account, from: Option<Date>, to: Option<Date>, store: Option<StoreId>)
    requires from.Some? && to.Some? ==> from.value <= to.value + 1
    ensures LedgerOf(b, a, from, to, store).closing == Signed(a, PostedLines(b, During(None, to, store, a.code)))
  {
    hide Select, Ordered, Signed;
    var lines := PostedLines(b, During(from, to, store, a.code));
    SignedOrdered(a, lines);
    if from.Some? {
      var mid := from.value - 1;
      OrderedPeriodSplits(b, a, None, mid, to, store);
      var before := PostedLines(b, During(None, Some(mid), store, a.code));
      SignedOrdered(a, before);
      SignedOrdered(a, PostedLines(b, During(None, to, store, a.code)));
      SignedAppend(a, Ordered(before), Ordered(lines));
    }
  }

  /**
   Neighbouring periods join line by line: the second opens where the first closes, and its
   rows, running balances included, are the remaining rows of the statement over both.
   */
  lemma StatementsSplice(b: Books, a: Account, from: Option<Date>, mid: Date, to: Option<Date>, store: Option<StoreId>)
    requires from.Some? ==> from.value <= mid + 1
    requires to.Some? ==> mid <= to.value
    ensures var whole := LedgerOf(b, a, from, to, store);
            var first := LedgerOf(b, a, from, Some(mid), store);
            var second := LedgerOf(b, a, Some(mid + 1), to, store);
            && second.opening == first.closing
            && whole.rows == first.rows + second.rows
            && whole.closing == second.closing
  {
    hide Select, Ordered, Signed, Running;
    OrderedPeriodSplits(b, a, from, mid, to, store);
    ClosingIgnoresStart(b, a, from, Some(mid), store);
    var opening := OpeningOf(b, a, from, store);
    var first := Ordered(PostedLines(b, During(from, Some(mid), store, a.code)));
    var second := Ordered(PostedLines(b, During(Some(mid + 1), to, store, a.code)));
    RunningAppend(a, opening, first, second);
    SignedAppend(a, first, second);
  }

  lemma TotalsNext(s: seq<PostedLine>, p: PostedLine, code: Code)
    ensures DebitSum(LinesOf(s + [p])) == DebitSum(LinesOf(s)) + p.line.debit
    ensures CreditSum(LinesOf(s + [p])) == CreditSum(LinesOf(s)) + p.line.credit
    ensures DebitOf(LinesOf(s + [p]), code) == DebitOf(LinesOf(s), code) + if p.line.account == code then p.line.debit else 0
    ensures CreditOf(LinesOf(s + [p]), code) == CreditOf(LinesOf(s), code) + if p.line.account == code then p.line.credit else 0
  {
    assert LinesOf(s + [p])[..|s|] == LinesOf(s);
  }

  /** The account's own lines, and all lines: the same totals of the account. */
  predicate SameTotals(own: seq<PostedLine>, all: seq<PostedLine>, code: Code) {
    && DebitSum(LinesOf(own)) == DebitOf(LinesOf(all), code)
    && CreditSum(LinesOf(own)) == CreditOf(LinesOf(all), code)
  }

  lemma SameTotalsNext(own: seq<PostedLine>, all: seq<PostedLine>, p: PostedLine, code: Code)
    requires SameTotals(own, all, code)
    ensures SameTotals(if p.line.account == code then own + [p] else own, all + [p], code)
  {
    hide DebitSum, CreditSum, DebitOf, CreditOf, LinesOf;
    TotalsNext(own, p, code);
    TotalsNext(all, p, code);
  }

  lemma {:induction false} AccountOfSelection(s: seq<PostedLine>, to: Option<Date>, store: Option<StoreId>, code: Code)
    ensures SameTotals(Select(s, During(None, to, store, code)), Select(s, UpTo(to, store)), code)
  {
    var own, all := During(None, to, store, code), UpTo(to, store);
    if s != [] {
      hide Select, SameTotals;
      var last, before := s[|s| - 1], s[..|s| - 1];
      assert s == before + [last];
      AccountOfSelection(before, to, store, code);
      SelectNext(before, last, own);
      SelectNext(before, last, all);
      SameTotalsNext(Select(before, own), Select(before, all), last, code);
    }
  }

  /**
   The drill-down agrees with the figure it explains: an account with lines has one row in the
   trial balance, which shows its closing balance, and one without has no row and closes at zero.
   */
  lemma ClosingMatchesTrialRow(b: Books, a: Account, from: Option<Date>, to: Option<Date>, store: Option<StoreId>, t: Trial)
    requires from.Some? && to.Some? ==> from.value <= to.value + 1
    requires UniqueCodes(b.chart) && a in b.chart
    requires IsTrialOf(t, b.chart, Selected(b, UpTo(to, store)))
    ensures var closing := LedgerOf(b, a, from, to, store).closing;
            && (forall i | 0 <= i < |t.rows| && t.rows[i].account == a :: a.Signed(t.rows[i].debit, t.rows[i].credit) == closing)
            && (forall i, j | 0 <= i < j < |t.rows| :: t.rows[i].account != t.rows[j].account)
            && if HasLine(Selected(b, UpTo(to, store)), a.code) then exists i :: 0 <= i < |t.rows| && t.rows[i].account == a
               else closing == 0 && forall i | 0 <= i < |t.rows| :: t.rows[i].account != a
  {
    hide Select, Ordered, Signed, LedgerOf, DebitOf, CreditOf, DebitSum, CreditSum, LinesOf, HasLine, UniqueCodes, Groups;
    var lines := Selected(b, UpTo(to, store));
    ClosingIgnoresStart(b, a, from, to, store);
    SignedIsNet(a, PostedLines(b, During(None, to, store, a.code)));
    AccountOfSelection(AllPosted(b.entries), to, store, a.code);
    GroupOfAccount(b.chart, lines, a);
    var groups := Groups(b.chart, lines);
    forall i | 0 <= i < |t.rows|
      ensures t.rows[i] == Presented(Group(groups[i].account, DebitOf(lines, groups[i].account.code), CreditOf(lines, groups[i].account.code)))
    {
      assert groups[i] in groups;
    }
    if HasLine(lines, a.code) {
      var g :| g in groups && g.account == a;
      var i :| 0 <= i < |groups| && groups[i] == g;
      assert t.rows[i].account == a;
    } else {
      NoLineNoAmount(lines, a.code);
    }
  }
}
