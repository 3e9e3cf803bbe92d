/**
 What the reports, which read posted lines only, show of a reversed entry: not nothing, but the
 opposite of the entry, and after n reversals the entry with its sign turned n times.
 */
module JournalPosted {
  import opened Common
  import opened Journal
  import opened JournalChains
  import opened JournalReports
  import opened AccountLedger

  /* ---- Reports, entry by entry ---- */

  /** What one entry adds to an account in the reports of a period and store. */
  function Shown(e: Entry, f: Filter, code: Code): int {
    if e.status == Posted && WholeEntry(f, e) then Net(e.lines, code) else 0
  }

  function AllShown(entries: seq<Entry>, f: Filter, code: Code): int {
    if entries == [] then 0
    else AllShown(entries[..|entries| - 1], f, code) + Shown(entries[|entries| - 1], f, code)
  }

  lemma {:induction false} NetAppend(a: seq<Line>, b: seq<Line>, code: Code)
    ensures Net(a + b, code) == Net(a, code) + Net(b, code)
  {
    if b == [] {
      assert a + b == a;
    } else {
      assert (a + b)[..|a + b| - 1] == a + b[..|b| - 1];
      NetAppend(a, b[..|b| - 1], code);
    }
  }

  lemma {:induction false} SelectionShows(entries: seq<Entry>, n: nat, f: Filter, code: Code)
    requires n <= |entries| && f.account == None
    ensures Net(LinesOf(Select(AllPosted(entries[..n]), f)), code) == AllShown(entries[..n], f, code)
  {
    hide Select, AllPosted, LinesOf, Net, AllShown, Shown;
    if n > 0 {
      SelectionShows(entries, n - 1, f, code);
      assert entries[..n] == entries[..n - 1] + [entries[n - 1]];
      ShownNext(entries[..n - 1], entries[n - 1], f, code);
      SelectionNext(entries, n, f, code);
    } else {
      NothingShown(entries, f, code);
    }
  }

  lemma SelectionNext(entries: seq<Entry>, n: nat, f: Filter, code: Code)
    requires 0 < n <= |entries| && f.account == None
    ensures Net(LinesOf(Select(AllPosted(entries[..n]), f)), code)
         == Net(LinesOf(Select(AllPosted(entries[..n - 1]), f)), code) + Shown(entries[n - 1], f, code)
  {
    hide Select, AllPosted, LinesOf, WholeEntry, Net;
    var before := LinesOf(Select(AllPosted(entries[..n - 1]), f));
    SelectEntry(entries, n, f);
    NetAppend(before, entries[n - 1].lines, code);
    assert before + [] == before;
  }

  lemma NothingShown(entries: seq<Entry>, f: Filter, code: Code)
    ensures Net(LinesOf(Select(AllPosted(entries[..0]), f)), code) == AllShown(entries[..0], f, code) == 0
  {
  }

  /** An account's net in the reports is what its posted entries add. */
  lemma ReportsShowPosted(b: Books, f: Filter, code: Code)
    requires f.account == None
    ensures Net(Selected(b, f), code) == AllShown(b.entries, f, code)
  {
    hide Select, AllPosted, LinesOf, Net;
    assert b.entries[..|b.entries|] == b.entries;
    SelectionShows(b.entries, |b.entries|, f, code);
  }

  lemma {:induction false} ShownUpdate(entries: seq<Entry>, i: nat, e: Entry, f: Filter, code: Code)
    requires i < |entries|
    ensures AllShown(entries[i := e], f, code) == AllShown(entries, f, code) - Shown(entries[i], f, code) + Shown(e, f, code)
  {
    hide Shown;
    var next, n := entries[i := e], |entries|;
    if i < n - 1 {
      assert next[..n - 1] == entries[..n - 1][i := e];
      ShownUpdate(entries[..n - 1], i, e, f, code);
    } else {
      assert next[..n - 1] == entries[..n - 1];
    }
  }

  lemma ShownNext(entries: seq<Entry>, e: Entry, f: Filter, code: Code)
    ensures AllShown(entries + [e], f, code) == AllShown(entries, f, code) + Shown(e, f, code)
  {
    assert (entries + [e])[..|entries|] == entries;
  }

  /* ---- One booking ---- */

  /** A period and store as a caller asks for them. */
  predicate Covers(f: Filter, date: Date, store: Option<StoreId>) {
    && (f.from.Some? ==> f.from.value <= date) && (f.to.Some? ==> date <= f.to.value)
    && (f.store.Some? ==> store == f.store)
  }

  /**
   A booked request shows in exactly the reports that cover its date and store, there with the
   rounded amounts of its own lines; every other report stays as it is.
   */
  lemma BookingInReports(b: Books, r: Request, f: Filter, code: Code)
    requires Posting(b, r).1.Created? && f.account == None
    ensures Net(Selected(Posting(b, r).0, f), code)
         == Net(Selected(b, f), code) + if Covers(f, r.date, r.store) then Net(Quantized(r.raws), code) else 0
  {
    hide Net, Selected, AllShown, Prepared, Quantized, Booked, DebitSum, CreditSum, OneSided;
    var next := Posting(b, r).0;
    PreparedIff(b, r.raws);
    ReportsShowPosted(b, f, code);
    ReportsShowPosted(next, f, code);
    ShownNext(b.entries, next.entries[|b.entries|], f, code);
  }

  /* ---- One reversal ---- */

  /** The entry that reversing e on a date would book. */
  function ReversalOf(e: Entry, id: nat, date: Date): Entry {
    Entry(date, Posted, e.sourceModule, "", e.store, Some(id), Mirrored(e.lines))
  }

  /** The journal after reversing an entry. */
  function WithReversal(entries: seq<Entry>, id: nat, date: Date): seq<Entry>
    requires id < |entries|
  {
    entries[id := entries[id].(status := Reversed)] + [ReversalOf(entries[id], id, date)]
  }

  lemma ReversingAppends(b: Books, id: nat, date: Date)
    requires Linked(b.entries) && id < |b.entries| && b.entries[id].status == Posted
    ensures Reversing(b, id, date) == (b.(entries := WithReversal(b.entries, id, date)), Created(|b.entries|))
  {
    hide Linked;
    PostedHasNoReversal(b.entries, id);
  }

  /** The same journal, told by the net of one account. */
  lemma ReversalShows(entries: seq<Entry>, id: nat, date: Date, f: Filter, code: Code)
    requires id < |entries| && entries[id].status == Posted
    ensures var e := entries[id];
            AllShown(WithReversal(entries, id, date), f, code)
            == AllShown(entries, f, code) - Shown(e, f, code) + Shown(ReversalOf(e, id, date), f, code)
  {
    hide AllShown, WholeEntry, Net;
    var marked := entries[id].(status := Reversed);
    ShownUpdate(entries, id, marked, f, code);
    ShownNext(entries[id := marked], ReversalOf(entries[id], id, date), f, code);
  }

  /**
   Reversing a posted entry takes it out of every report that covers its date, and puts its
   opposite into every report that covers the date of the reversal. So the pair cancels in a
   report exactly when the entry nets to nothing on the account, or the reversal lies outside;
   and a report covering both moves by twice the entry.
   */
  lemma ReversalInReports(b: Books, id: nat, date: Date, f: Filter, code: Code)
    requires Linked(b.entries) && id < |b.entries| && b.entries[id].status == Posted && f.account == None
    ensures var next, e := Reversing(b, id, date).0, b.entries[id];
            var rev, net := ReversalOf(e, id, date), Net(e.lines, code);
            && next.entries == WithReversal(b.entries, id, date)
            && Net(Selected(next, f), code)
               == Net(Selected(b, f), code) - (if WholeEntry(f, e) then net else 0) - (if WholeEntry(f, rev) then net else 0)
            && (Shown(next.entries[id], f, code) + Shown(rev, f, code) == 0 <==> net == 0 || !WholeEntry(f, rev))
            && (WholeEntry(f, e) && WholeEntry(f, rev) ==>
                  (Net(Selected(next, f), code) == Net(Selected(b, f), code) <==> net == 0))
  {
    hide Net, Selected, AllShown, WholeEntry, Linked, Reversing;
    ReversingAppends(b, id, date);
    ReversalShows(b.entries, id, date, f, code);
    MirrorNegates(b.entries[id].lines, code);
    ReportsShowPosted(b, f, code);
    ReportsShowPosted(Reversing(b, id, date).0, f, code);
  }

  /* ---- Whole chains ---- */

  /** How many reversals an entry has had, counting reversals of its reversal. */
  ghost function Reversals(entries: seq<Entry>, i: nat): nat
    requires Linked(entries) && i < |entries|
    decreases |entries| - i
  {
    if IsReversed(entries, i) then
      var j: nat :| ReversesEntry(entries, j, i);
      1 + Reversals(entries, j)
    else 0
  }

  lemma ReversalsNext(entries: seq<Entry>, i: nat, j: nat)
    requires Linked(entries) && ReversesEntry(entries, j, i)
    ensures i < j < |entries| && Reversals(entries, i) == 1 + Reversals(entries, j)
  {
    assert MirrorsEarlier(entries, j, i);
    assert IsReversed(entries, i);
  }

  /** An entry's lines on an account, the sign turned once for each reversal. */
  ghost function Turned(entries: seq<Entry>, i: nat, code: Code): int
    requires Linked(entries) && i < |entries|
  {
    if Reversals(entries, i) % 2 == 0 then Net(entries[i].lines, code) else -Net(entries[i].lines, code)
  }

  lemma TurnedOfReversal(entries: seq<Entry>, i: nat, p: nat, code: Code)
    requires Linked(entries) && ReversesEntry(entries, i, p)
    ensures p < i && Turned(entries, i, code) == Turned(entries, p, code)
  {
    assert MirrorsEarlier(entries, i, p);
    hide Linked, Reversals, Net;
    ReversalsNext(entries, p, i);
    MirrorNegates(entries[p].lines, code);
  }

  /** Every link of a chain stands for the same figure. */
  lemma {:induction false} TurnedAlongChain(entries: seq<Entry>, i: nat, code: Code)
    requires Linked(entries) && i < |entries|
    ensures Turned(entries, i, code) == Turned(entries, Root(entries, i), code)
  {
    hide Linked, Turned;
    if entries[i].reverses.Some? {
      var p := entries[i].reverses.value;
      assert ReversesEntry(entries, i, p);
      TurnedOfReversal(entries, i, p, code);
      TurnedAlongChain(entries, p, code);
    }
  }

  /** The last link of the chain an entry is on. */
  ghost function Tip(entries: seq<Entry>, i: nat): (t: nat)
    requires Linked(entries) && i < |entries|
    ensures t < |entries|
    decreases |entries| - i
  {
    if IsReversed(entries, i) then
      var j: nat :| ReversesEntry(entries, j, i);
      Tip(entries, j)
    else i
  }

  lemma TipNext(entries: seq<Entry>, i: nat, j: nat)
    requires Linked(entries) && ReversesEntry(entries, j, i)
    ensures i < j < |entries| && Tip(entries, i) == Tip(entries, j)
  {
    assert MirrorsEarlier(entries, j, i);
    assert IsReversed(entries, i);
  }

  /** The last link is the posted one, and the same from wherever the chain is entered. */
  lemma {:induction false} TipOfChain(entries: seq<Entry>, i: nat)
    requires Linked(entries) && i < |entries|
    ensures Tip(entries, Root(entries, i)) == Tip(entries, i)
    ensures entries[i].status == Posted ==> Tip(entries, i) == i
  {
    if entries[i].reverses.Some? {
      var p := entries[i].reverses.value;
      assert ReversesEntry(entries, i, p);
      TipNext(entries, p, i);
      TipOfChain(entries, p);
    }
    if entries[i].status == Posted {
      PostedHasNoReversal(entries, i);
    }
  }

  /**
   What an entry that reverses nothing stands for in a report: its net, the sign turned by its
   reversals, when the last link of its chain is in the report.
   */
  ghost function Original(entries: seq<Entry>, i: nat, f: Filter, code: Code): int
    requires Linked(entries) && i < |entries|
  {
    if entries[i].reverses == None && WholeEntry(f, entries[Tip(entries, i)]) then Turned(entries, i, code) else 0
  }

  /** The same, over the first n entries. */
  ghost function Originals(entries: seq<Entry>, n: nat, f: Filter, code: Code): int
    requires Linked(entries) && n <= |entries|
  {
    if n == 0 then 0 else Originals(entries, n - 1, f, code) + Original(entries, n - 1, f, code)
  }

  lemma {:induction false} ReversalsAppend(entries: seq<Entry>, e: Entry, i: nat)
    requires Linked(entries) && Linked(entries + [e]) && e.reverses == None && i <= |entries|
    ensures Reversals(entries + [e], i) == if i < |entries| then Reversals(entries, i) else 0
    ensures Tip(entries + [e], i) == if i < |entries| then Tip(entries, i) else i
    decreases |entries| - i
  {
    var more := entries + [e];
    if IsReversed(more, i) {
      var j: nat :| ReversesEntry(more, j, i);
      assert MirrorsEarlier(more, j, i);
      assert ReversesEntry(entries, j, i);
      ReversalsNext(more, i, j);
      ReversalsNext(entries, i, j);
      TipNext(more, i, j);
      TipNext(entries, i, j);
      ReversalsAppend(entries, e, j);
    } else {
      assert forall j: nat :: ReversesEntry(entries, j, i) ==> ReversesEntry(more, j, i);
    }
  }

  lemma {:induction false} OriginalsAppend(entries: seq<Entry>, e: Entry, n: nat, f: Filter, code: Code)
    requires Linked(entries) && Linked(entries + [e]) && e.reverses == None && n <= |entries|
    ensures Originals(entries + [e], n, f, code) == Originals(entries, n, f, code)
  {
    if n > 0 {
      hide Linked, Reversals, Tip, WholeEntry, Net;
      OriginalsAppend(entries, e, n - 1, f, code);
      ReversalsAppend(entries, e, n - 1);
    }
  }

  /** Reversing lengthens one chain, by one. */
  lemma {:induction false} ReversalsAfter(entries: seq<Entry>, id: nat, date: Date, i: nat)
    requires id < |entries| && entries[id].status == Posted && i < |entries|
    requires Linked(entries) && Linked(WithReversal(entries, id, date))
    ensures Reversals(WithReversal(entries, id, date), i)
         == Reversals(entries, i) + if Root(entries, i) == Root(entries, id) then 1 else 0
    ensures Tip(WithReversal(entries, id, date), i)
         == if Root(entries, i) == Root(entries, id) then |entries| else Tip(entries, i)
    decreases |entries| - i
  {
    var next, n := WithReversal(entries, id, date), |entries|;
    PostedHasNoReversal(entries, id);
    assert next[n].reverses == Some(id);
    if i == id {
      assert ReversesEntry(next, n, id);
      ReversalsNext(next, id, n);
      TipNext(next, id, n);
      NothingAfterLast(next);
    } else if IsReversed(entries, i) {
      var j: nat :| ReversesEntry(entries, j, i);
      assert ReversesEntry(next, j, i);
      ReversalsNext(entries, i, j);
      ReversalsNext(next, i, j);
      TipNext(entries, i, j);
      TipNext(next, i, j);
      ReversalsAfter(entries, id, date, j);
    } else {
      TipsDiffer(entries, i, id);
      forall j: nat
        ensures !ReversesEntry(next, j, i)
      {
        assert j < n ==> !ReversesEntry(entries, j, i);
      }
    }
  }

  lemma NothingAfterLast(entries: seq<Entry>)
    requires Linked(entries) && entries != []
    ensures Reversals(entries, |entries| - 1) == 0 && Tip(entries, |entries| - 1) == |entries| - 1
  {
    var i: nat := |entries| - 1;
    forall j: nat | j < |entries|
      ensures !ReversesEntry(entries, j, i)
    {
      assert ReversesEntry(entries, j, i) ==> MirrorsEarlier(entries, j, i);
    }
  }

  /** Two different entries without a reversal are on different chains. */
  lemma TipsDiffer(entries: seq<Entry>, i: nat, id: nat)
    requires Linked(entries) && i < |entries| && id < |entries| && i != id
    requires !IsReversed(entries, i) && entries[id].status == Posted
    ensures Root(entries, i) != Root(entries, id)
  {
    assert entries[i].status == Posted;
    if Root(entries, i) == Root(entries, id) {
      if Depth(entries, i) == Depth(entries, id) {
        ChainIsStraight(entries, i, id);
      } else if Depth(entries, i) < Depth(entries, id) {
        ShallowerIsReversed(entries, i, id);
      } else {
        ShallowerIsReversed(entries, id, i);
      }
    }
  }

  /** Reversing turns the sign of one chain. */
  lemma TurnedAfter(entries: seq<Entry>, id: nat, date: Date, i: nat, code: Code)
    requires id < |entries| && entries[id].status == Posted && i < |entries|
    requires Linked(entries) && Linked(WithReversal(entries, id, date))
    ensures var next := WithReversal(entries, id, date);
            && next[i].reverses == entries[i].reverses && next[i].store == entries[i].store
            && Turned(next, i, code)
               == (if Root(entries, i) == Root(entries, id) then -Turned(entries, i, code) else Turned(entries, i, code))
  {
    hide Linked, Net, Reversals, Root;
    var next := WithReversal(entries, id, date);
    assert next[i].lines == entries[i].lines;
    ReversalsAfter(entries, id, date, i);
  }

  /** What the chain of an entry about to be reversed adds to a report, before and after. */
  lemma OriginalAfter(entries: seq<Entry>, id: nat, date: Date, i: nat, f: Filter, code: Code)
    requires id < |entries| && entries[id].status == Posted && i < |entries|
    requires Linked(entries) && Linked(WithReversal(entries, id, date))
    ensures var root, e := Root(entries, id), entries[id];
            && Original(WithReversal(entries, id, date), i, f, code)
               == (if i != root then Original(entries, i, f, code) else Shown(ReversalOf(e, id, date), f, code))
            && Original(entries, root, f, code) == Shown(e, f, code)
  {
    hide Linked, Reversals, Tip, Net;
    var next := WithReversal(entries, id, date);
    var root := Root(entries, id);
    ReversalsAfter(entries, id, date, i);
    TurnedAfter(entries, id, date, i, code);
    TurnedAlongChain(entries, id, code);
    TurnedWhenPosted(entries, id, code);
    TipOfChain(entries, id);
    MirrorNegates(entries[id].lines, code);
    assert forall j | 0 <= j < |entries| :: WholeEntry(f, next[j]) <==> WholeEntry(f, entries[j]);
  }

  lemma {:induction false} OriginalsAfter(entries: seq<Entry>, id: nat, date: Date, n: nat, f: Filter, code: Code)
    requires id < |entries| && entries[id].status == Posted && n <= |entries|
    requires Linked(entries) && Linked(WithReversal(entries, id, date))
    ensures var root, e := Root(entries, id), entries[id];
            Originals(WithReversal(entries, id, date), n, f, code)
            == Originals(entries, n, f, code)
               + if root < n then Shown(ReversalOf(e, id, date), f, code) - Shown(e, f, code) else 0
  {
    if n > 0 {
      hide Linked, Original, WithReversal, Root, Shown, ReversalOf, Net;
      OriginalsAfter(entries, id, date, n - 1, f, code);
      OriginalAfter(entries, id, date, n - 1, f, code);
    }
  }

  /** Nothing but chains: a report is its originals, the signs turned by their reversals. */
  ghost predicate ShowsOriginals(entries: seq<Entry>, f: Filter, code: Code)
    requires Linked(entries)
  {
    AllShown(entries, f, code) == Originals(entries, |entries|, f, code)
  }

  lemma PostKeepsShown(entries: seq<Entry>, e: Entry, f: Filter, code: Code)
    requires Linked(entries) && Linked(entries + [e]) && e.reverses == None && e.status == Posted
    requires ShowsOriginals(entries, f, code)
    ensures ShowsOriginals(entries + [e], f, code)
  {
    hide Linked, AllShown, WholeEntry, Reversals, Tip, Net;
    ShownNext(entries, e, f, code);
    OriginalsAppend(entries, e, |entries|, f, code);
    ReversalsAppend(entries, e, |entries|);
  }

  lemma ReverseKeepsShown(entries: seq<Entry>, id: nat, date: Date, f: Filter, code: Code)
    requires id < |entries| && entries[id].status == Posted
    requires Linked(entries) && Linked(WithReversal(entries, id, date))
    requires ShowsOriginals(entries, f, code)
    ensures ShowsOriginals(WithReversal(entries, id, date), f, code)
  {
    hide Linked, AllShown, Shown, Net, Turned, Root, Depth, Tip;
    ReversalShows(entries, id, date, f, code);
    OriginalsAfter(entries, id, date, |entries|, f, code);
    var next := WithReversal(entries, id, date);
    assert next[|entries|].reverses == Some(id);
    assert Originals(next, |next|, f, code) == Originals(next, |entries|, f, code);
  }

  lemma TurnedWhenPosted(entries: seq<Entry>, id: nat, code: Code)
    requires Linked(entries) && id < |entries| && entries[id].status == Posted
    ensures Turned(entries, id, code) == Net(entries[id].lines, code)
  {
    hide Linked, Net;
    PostedHasNoReversal(entries, id);
  }

  /**
   In every reachable journal, for any period and store, an account's net in the report is the sum
   of the original entries whose chain has its posted link in the period, each as it was booked
   after an even number of reversals and turned round after an odd one.
   */
  lemma {:induction false} ReportsShowOriginals(chart: seq<Account>, steps: seq<Step>, f: Filter, code: Code)
    requires f.account == None
    ensures var b := Run(Opened(chart), steps);
            Linked(b.entries)
            && Net(Selected(b, f), code) == Originals(b.entries, |b.entries|, f, code)
  {
    hide Linked, Selected, Net;
    ReachableIsSound(chart, steps);
    ReachableShows(chart, steps, f, code);
    ReportsShowPosted(Run(Opened(chart), steps), f, code);
  }

  lemma {:induction false} ReachableShows(chart: seq<Account>, steps: seq<Step>, f: Filter, code: Code)
    ensures var b := Run(Opened(chart), steps); Linked(b.entries) && ShowsOriginals(b.entries, f, code)
  {
    hide Linked, ShowsOriginals, AllProper, SlotsUnique, Booked, Prepared, HasReversal, DebitSum, CreditSum;
    ReachableIsSound(chart, steps);
    if steps != [] {
      var before, last := Run(Opened(chart), steps[..|steps| - 1]), steps[|steps| - 1];
      ReachableShows(chart, steps[..|steps| - 1], f, code);
      var next := Next(before, last);
      match last
      case Post(request) =>
        if next != before {
          PostKeepsShown(before.entries, next.entries[|before.entries|], f, code);
        }
      case Reverse(id, date) =>
        if id < |before.entries| && before.entries[id].status == Posted {
          ReversingAppends(before, id, date);
          ReverseKeepsShown(before.entries, id, date, f, code);
        }
      case Archive(_, _) =>
    } else {
      NothingShownYet(f, code);
    }
  }

  lemma NothingShownYet(f: Filter, code: Code)
    ensures Linked([]) && ShowsOriginals([], f, code)
  {
  }

  /* ---- What the drill-down shows ---- */

  lemma {:induction false} NetIsDifference(lines: seq<Line>, code: Code)
    ensures Net(lines, code) == DebitOf(lines, code) - CreditOf(lines, code)
  {
    if lines != [] {
      NetIsDifference(lines[..|lines| - 1], code);
    }
  }

  /** An account's closing balance is its net in the reports, in its own direction. */
  lemma ClosingIsNet(b: Books, a: Account, to: Option<Date>, store: Option<StoreId>)
    ensures LedgerOf(b, a, None, to, store).closing == a.Signed(Net(Selected(b, UpTo(to, store)), a.code), 0)
  {
    hide Select, Ordered, AccountLedger.Signed, LedgerOf, DebitOf, CreditOf, DebitSum, CreditSum, LinesOf, Net;
    ClosingIgnoresStart(b, a, None, to, store);
    SignedIsNet(a, PostedLines(b, During(None, to, store, a.code)));
    AccountOfSelection(AllPosted(b.entries), to, store, a.code);
    NetIsDifference(Selected(b, UpTo(to, store)), a.code);
  }

  const CASH := Account("1000", Asset)
  const SALES := Account("4000", Income)

  /** A cash sale of 1000 rupees. */
  function SaleRequest(date: Date): Request {
    Request(date, [RawLine("1000", 1000.0, 0.0)] + [RawLine("4000", 0.0, 1000.0)], None, "", "")
  }

  function SaleLines(): seq<Line> {
    [Line("1000", 100000, 0)] + [Line("4000", 0, 100000)]
  }

  lemma PreparedNext(b: Books, raws: seq<RawLine>, raw: RawLine)
    requires Prepared(b, raws).Ok?
    ensures var debit, credit := Dec(raw.debit), Dec(raw.credit);
            Known(b.chart, raw.account) && raw.account !in b.archived && (debit > 0) != (credit > 0) ==>
              Prepared(b, raws + [raw]) == Ok(Prepared(b, raws).value + [Line(raw.account, debit, credit)])
  {
    hide Dec, Known;
    assert (raws + [raw])[..|raws|] == raws;
  }

  lemma SaleIsPrepared(b: Books)
    requires Known(b.chart, "1000") && Known(b.chart, "4000") && b.archived == {}
    ensures Prepared(b, [RawLine("1000", 1000.0, 0.0)] + [RawLine("4000", 0.0, 1000.0)]) == Ok(SaleLines())
  {
    hide Known, Prepared;
    var none: seq<RawLine> := [];
    var noLines: seq<Line> := [];
    assert Dec(1000.0) == 100000 && Dec(0.0) == 0;
    NothingPrepared(b);
    PreparedNext(b, none, RawLine("1000", 1000.0, 0.0));
    assert none + [RawLine("1000", 1000.0, 0.0)] == [RawLine("1000", 1000.0, 0.0)];
    assert noLines + [Line("1000", 100000, 0)] == [Line("1000", 100000, 0)];
    PreparedNext(b, [RawLine("1000", 1000.0, 0.0)], RawLine("4000", 0.0, 1000.0));
  }

  lemma NothingPrepared(b: Books)
    ensures Prepared(b, []) == Ok([])
  {
  }

  lemma SaleBalances()
    ensures DebitSum(SaleLines()) == CreditSum(SaleLines()) == 100000
    ensures forall l | l in SaleLines() :: OneSided(l)
  {
    assert SaleLines()[..1] == [Line("1000", 100000, 0)] && SaleLines()[..1][..0] == [];
  }

  lemma SaleIsBooked(date: Date)
    ensures Posting(Opened([CASH, SALES]), SaleRequest(date))
         == (Opened([CASH, SALES]).(entries := [Entry(date, Posted, "", "", None, None, SaleLines())]), Created(0))
  {
    hide Prepared, DebitSum, CreditSum, OneSided, Booked, SaleLines;
    var b := Opened([CASH, SALES]);
    assert CASH in b.chart && SALES in b.chart;
    SaleIsPrepared(b);
    SaleBalances();
    assert b.entries + [Entry(date, Posted, "", "", None, None, SaleLines())] == [Entry(date, Posted, "", "", None, None, SaleLines())];
  }

  /** Booking a sale and reversing it leaves the cash account at minus the sale. */
  lemma ReversedSaleShowsMinus(date: Date)
    ensures var b := Run(Opened([CASH, SALES]), [Post(SaleRequest(date))] + [Reverse(0, date)]);
            LedgerOf(b, CASH, None, None, None).closing == -100000
  {
    hide Posting, AllShown, Net, LedgerOf, Selected, Linked, SaleRequest;
    var empty, post, reverse := Opened([CASH, SALES]), Post(SaleRequest(date)), Reverse(0, date);
    var none: seq<Step> := [];
    assert ([post] + [reverse])[..1] == [post] && [post][..0] == none;
    var once := Run(empty, [post]);
    SaleIsBooked(date);
    ReachableIsSound([CASH, SALES], [post]);
    ReversalInReports(once, 0, date, UpTo(None, None), "1000");
    ReportsShowPosted(once, UpTo(None, None), "1000");
    SaleShows(date);
    ClosingIsNet(Run(empty, [post] + [reverse]), CASH, None, None);
  }

  lemma SaleShows(date: Date)
    ensures Net(SaleLines(), "1000") == 100000
    ensures AllShown([Entry(date, Posted, "", "", None, None, SaleLines())], UpTo(None, None), "1000") == 100000
  {
    assert SaleLines()[..1] == [Line("1000", 100000, 0)] && SaleLines()[..1][..0] == [];
  }
}
