/**
 The double-entry general ledger: posting, and reversing with a mirror-image entry. Entries
 are numbered by their position; nothing is ever removed.
 */
module Journal {
  import opened Common

  type Code = string
  type Date = int
  type StoreId = nat

  datatype AccountType = Asset | Liability | Equity | Income | Expense

  datatype Account = Account(code: Code, kind: AccountType) {
    predicate IsDebitNormal() {
      kind == Asset || kind == Expense
    }

    /** Movement in the account's own normal direction. */
    function Signed(debit: int, credit: int): int {
      if IsDebitNormal() then debit - credit else credit - debit
    }
  }

  datatype Line = Line(account: Code, debit: int, credit: int)

  datatype EntryStatus = Posted | Reversed

  datatype Entry = Entry(
    date: Date,
    status: EntryStatus,
    sourceModule: string,
    sourceRef: string,
    store: Option<StoreId>,
    reverses: Option<nat>,
    lines: seq<Line>
  )

  /** A line as a caller gives it; an absent side is zero. Amounts are in rupees. */
  datatype RawLine = RawLine(account: Code, debit: real, credit: real)

  datatype Error = Unbalanced | AccountUnknown | InvalidTransition | AlreadyReversed | ConstraintViolated

  datatype Outcome = Created(id: nat) | Existing(id: nat) | Refused(error: Error)

  /** The tables: the chart of accounts (codes are unique), which of them are archived, the journal. */
  datatype Books = Books(chart: seq<Account>, archived: set<Code>, entries: seq<Entry>)

  predicate UniqueCodes(chart: seq<Account>) {
    forall i, j | 0 <= i < j < |chart| :: chart[i].code != chart[j].code
  }

  predicate Known(chart: seq<Account>, code: Code) {
    exists a :: a in chart && a.code == code
  }

  /** Rupees to whole paise, halves to the even paisa: quantize with the default rounding. */
  function Dec(x: real): int {
    var y := x * 100.0;
    var below := y.Floor;
    var rest := y - below as real;
    if rest < 0.5 || (rest == 0.5 && below % 2 == 0) then below else below + 1
  }

  /** No other paisa is nearer, and a tie goes to the even one. */
  lemma DecIsNearest(x: real, n: int)
    ensures var d := Dec(x);
            var off := if d as real < x * 100.0 then x * 100.0 - d as real else d as real - x * 100.0;
            var other := if n as real < x * 100.0 then x * 100.0 - n as real else n as real - x * 100.0;
            off <= 0.5 && off <= other && (off == other && n != d ==> d % 2 == 0)
  {
    var below := (x * 100.0).Floor;
    if n < below {
      assert n as real <= below as real - 1.0;
    } else if n > below + 1 {
      assert n as real >= below as real + 2.0;
    }
  }

  function DebitSum(lines: seq<Line>): int {
    if lines == [] then 0 else DebitSum(lines[..|lines| - 1]) + lines[|lines| - 1].debit
  }

  function CreditSum(lines: seq<Line>): int {
    if lines == [] then 0 else CreditSum(lines[..|lines| - 1]) + lines[|lines| - 1].credit
  }

  /** The database constraint on a stored line. */
  predicate OneSided(l: Line) {
    (l.debit > 0 && l.credit == 0) || (l.credit > 0 && l.debit == 0)
  }

  /** The checks on each line, in order; the first failure decides. */
  function Prepared(b: Books, raws: seq<RawLine>): Result<seq<Line>, Error> {
    if raws == [] then Ok([])
    else
      match Prepared(b, raws[..|raws| - 1])
      case Err(e) => Err(e)
      case Ok(lines) =>
        var raw := raws[|raws| - 1];
        var debit, credit := Dec(raw.debit), Dec(raw.credit);
        if !Known(b.chart, raw.account) || raw.account in b.archived then Err(AccountUnknown)
        else if (debit > 0) == (credit > 0) then Err(Unbalanced)
        else Ok(lines + [Line(raw.account, debit, credit)])
  }

  /** The entry already booked for a source, if any. */
  function Booked(entries: seq<Entry>, sourceModule: string, sourceRef: string): Option<nat> {
    if entries == [] then None
    else
      match Booked(entries[..|entries| - 1], sourceModule, sourceRef)
      case Some(i) => Some(i)
      case None =>
        var last := entries[|entries| - 1];
        if last.sourceModule == sourceModule && last.sourceRef == sourceRef then Some(|entries| - 1) else None
  }

  datatype Request = Request(date: Date, raws: seq<RawLine>, store: Option<StoreId>, sourceModule: string, sourceRef: string)

  function Posting(b: Books, r: Request): (Books, Outcome) {
    if |r.raws| < 2 then (b, Refused(Unbalanced))
    else if r.sourceRef != "" && Booked(b.entries, r.sourceModule, r.sourceRef).Some? then
      (b, Existing(Booked(b.entries, r.sourceModule, r.sourceRef).value))
    else
      match Prepared(b, r.raws)
      case Err(e) => (b, Refused(e))
      case Ok(lines) =>
        if DebitSum(lines) != CreditSum(lines) || DebitSum(lines) == 0 then (b, Refused(Unbalanced))
        // A negative side passes the code's own check; the constraint rolls the whole entry back.
        else if exists l :: l in lines && !OneSided(l) then (b, Refused(ConstraintViolated))
        else
          (b.(entries := b.entries + [Entry(r.date, Posted, r.sourceModule, r.sourceRef, r.store, None, lines)]),
           Created(|b.entries|))
  }

  function Mirrored(lines: seq<Line>): (r: seq<Line>)
    ensures |r| == |lines|
    ensures forall i | 0 <= i < |r| :: r[i] == Line(lines[i].account, lines[i].credit, lines[i].debit)
  {
    seq(|lines|, i requires 0 <= i < |lines| => Line(lines[i].account, lines[i].credit, lines[i].debit))
  }

  predicate HasReversal(entries: seq<Entry>, id: nat) {
    exists e :: e in entries && e.reverses == Some(id)
  }

  function Reversing(b: Books, id: nat, date: Date): (Books, Outcome)
    requires id < |b.entries|
  {
    var e := b.entries[id];
    if e.status != Posted then (b, Refused(InvalidTransition))
    else if HasReversal(b.entries, id) then (b, Refused(AlreadyReversed))
    else
      // The reversal keeps the store and module, and leaves the source slot to the original.
      var reversal := Entry(date, Posted, e.sourceModule, "", e.store, Some(id), Mirrored(e.lines));
      (b.(entries := b.entries[id := e.(status := Reversed)] + [reversal]), Created(|b.entries|))
  }

  class GeneralLedger {
    const chart: seq<Account>
    var archived: set<Code>
    var entries: seq<Entry>

    constructor (chart: seq<Account>)
      ensures Tables() == Books(chart, {}, [])
    {
      this.chart, archived, entries := chart, {}, [];
    }

    function Tables(): Books
      reads this
    {
      Books(chart, archived, entries)
    }

    method SetArchived(code: Code, isArchived: bool)
      modifies this`archived
      ensures archived == if isArchived then old(archived) + {code} else old(archived) - {code}
    {
      archived := if isArchived then archived + {code} else archived - {code};
    }

    method FindBooked(sourceModule: string, sourceRef: string) returns (r: Option<nat>)
      ensures r == Booked(entries, sourceModule, sourceRef)
      ensures r.Some? ==> r.value < |entries|
                          && entries[r.value].sourceModule == sourceModule && entries[r.value].sourceRef == sourceRef
    {
      r := None;
      for i := 0 to |entries|
        invariant r == Booked(entries[..i], sourceModule, sourceRef)
        invariant r.Some? ==> r.value < i
                              && entries[r.value].sourceModule == sourceModule && entries[r.value].sourceRef == sourceRef
      {
        assert entries[..i + 1][..i] == entries[..i];
        if r == None && entries[i].sourceModule == sourceModule && entries[i].sourceRef == sourceRef {
          r := Some(i);
        }
      }
      assert entries[..|entries|] == entries;
    }

    method IsKnown(code: Code) returns (r: bool)
      ensures r <==> Known(chart, code)
    {
      for i := 0 to |chart|
        invariant forall j | 0 <= j < i :: chart[j].code != code
      {
        if chart[i].code == code {
          assert chart[i] in chart;
          return true;
        }
      }
      return false;
    }

    /** Check the lines in order, quantize them, and total both sides. */
    method PrepareLines(raws: seq<RawLine>) returns (r: Result<seq<Line>, Error>, totalDebit: int, totalCredit: int)
      ensures r == Prepared(Tables(), raws)
      ensures r.Ok? ==> totalDebit == DebitSum(r.value) && totalCredit == CreditSum(r.value)
    {
      ghost var b := Tables();
      var prepared: seq<Line> := [];
      totalDebit, totalCredit := 0, 0;
      for i := 0 to |raws|
        invariant Prepared(b, raws[..i]) == Ok(prepared)
        invariant totalDebit == DebitSum(prepared) && totalCredit == CreditSum(prepared)
      {
        assert raws[..i + 1][..i] == raws[..i] && raws[..i + 1][i] == raws[i];
        var raw := raws[i];
        var known := IsKnown(raw.account);
        var debit, credit := Dec(raw.debit), Dec(raw.credit);
        if !known || raw.account in archived {
          assert Prepared(b, raws[..i + 1]) == Err(AccountUnknown);
          PreparedStops(b, raws, i + 1);
          return Err(AccountUnknown), totalDebit, totalCredit;
        }
        if (debit > 0) == (credit > 0) {
          assert Prepared(b, raws[..i + 1]) == Err(Unbalanced);
          PreparedStops(b, raws, i + 1);
          return Err(Unbalanced), totalDebit, totalCredit;
        }
        totalDebit := totalDebit + debit;
        totalCredit := totalCredit + credit;
        ghost var before := prepared;
        prepared := prepared + [Line(raw.account, debit, credit)];
        assert prepared[..|prepared| - 1] == before;
      }
      assert raws[..|raws|] == raws;
      r := Ok(prepared);
    }

    /** Book a request: a source seen before yields its entry, and a refusal leaves no trace. */
    method PostEntry(r: Request) returns (outcome: Outcome)
      modifies this`entries
      ensures (Tables(), outcome) == Posting(old(Tables()), r)
    {
      if |r.raws| < 2 {
        return Refused(Unbalanced);
      }
      if r.sourceRef != "" {
        var existing := FindBooked(r.sourceModule, r.sourceRef);
        if existing.Some? {
          return Existing(existing.value);
        }
      }
      var prepared, totalDebit, totalCredit := PrepareLines(r.raws);
      if prepared.Err? {
        return Refused(prepared.error);
      }
      if totalDebit != totalCredit {
        return Refused(Unbalanced);
      }
      if totalDebit == 0 {
        return Refused(Unbalanced);
      }
      var sound := AllOneSided(prepared.value);
      if !sound {
        return Refused(ConstraintViolated);
      }
      entries := entries + [Entry(r.date, Posted, r.sourceModule, r.sourceRef, r.store, None, prepared.value)];
      return Created(|entries| - 1);
    }

    /** What the database checks when the lines are inserted. */
    method AllOneSided(lines: seq<Line>) returns (r: bool)
      ensures r <==> forall l | l in lines :: OneSided(l)
    {
      for i := 0 to |lines|
        invariant forall j | 0 <= j < i :: OneSided(lines[j])
      {
        if !OneSided(lines[i]) {
          assert lines[i] in lines;
          return false;
        }
      }
      return true;
    }

    /** Undo a posted entry by booking its opposite; nothing is removed. */
    method ReverseEntry(id: nat, date: Date) returns (outcome: Outcome)
      requires id < |entries|
      modifies this`entries
      ensures (Tables(), outcome) == Reversing(old(Tables()), id, date)
    {
      var entry := entries[id];
      if entry.status != Posted {
        return Refused(InvalidTransition);
      }
      for i := 0 to |entries|
        invariant forall j | 0 <= j < i :: entries[j].reverses != Some(id)
      {
        if entries[i].reverses == Some(id) {
          assert entries[i] in entries;
          return Refused(AlreadyReversed);
        }
      }
      var lines: seq<Line> := [];
      for i := 0 to |entry.lines|
        invariant lines == Mirrored(entry.lines)[..i]
      {
        lines := lines + [Line(entry.lines[i].account, entry.lines[i].credit, entry.lines[i].debit)];
      }
      assert lines == Mirrored(entry.lines);
      entries := entries + [Entry(date, Posted, entry.sourceModule, "", entry.store, Some(id), lines)];
      assert entries[id := entry.(status := Reversed)] == old(entries)[id := entry.(status := Reversed)] + [entries[|entries| - 1]];
      entries := entries[id := entry.(status := Reversed)];
      return Created(|entries| - 1);
    }
  }

  lemma {:induction false} PreparedStops(b: Books, raws: seq<RawLine>, n: nat)
    requires n <= |raws| && Prepared(b, raws[..n]).Err?
    ensures Prepared(b, raws) == Prepared(b, raws[..n])
    decreases |raws|
  {
    if n == |raws| {
      assert raws[..n] == raws;
    } else {
      assert raws[..|raws| - 1][..n] == raws[..n];
      PreparedStops(b, raws[..|raws| - 1], n);
    }
  }
}
