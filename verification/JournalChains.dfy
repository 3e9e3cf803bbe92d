/** What every reachable journal looks like: balanced entries, and straight chains of reversals. */
module JournalChains {
  import opened Common
  import opened Journal

  datatype Step =
    | Post(request: Request)
    | Reverse(id: nat, date: Date)
    | Archive(code: Code, archived: bool)

  function Next(b: Books, s: Step): Books {
    match s
    case Post(request) => Posting(b, request).0
    case Reverse(id, date) => if id < |b.entries| then Reversing(b, id, date).0 else b
    case Archive(code, archived) => b.(archived := if archived then b.archived + {code} else b.archived - {code})
  }

  function Run(b: Books, steps: seq<Step>): Books {
    if steps == [] then b else Next(Run(b, steps[..|steps| - 1]), steps[|steps| - 1])
  }

  function Opened(chart: seq<Account>): Books {
    Books(chart, {}, [])
  }

  /* ---- Balanced entries ---- */

  predicate Proper(chart: seq<Account>, lines: seq<Line>) {
    DebitSum(lines) == CreditSum(lines) && forall l | l in lines :: OneSided(l) && Known(chart, l.account)
  }

  predicate AllProper(b: Books) {
    forall i | 0 <= i < |b.entries| :: Proper(b.chart, b.entries[i].lines)
  }

  lemma {:induction false} PreparedKnown(b: Books, raws: seq<RawLine>)
    requires Prepared(b, raws).Ok?
    ensures forall l | l in Prepared(b, raws).value :: Known(b.chart, l.account)
  {
    if raws != [] {
      PreparedKnown(b, raws[..|raws| - 1]);
    }
  }

  lemma {:induction false} MirrorSwapsTotals(lines: seq<Line>)
    ensures DebitSum(Mirrored(lines)) == CreditSum(lines) && CreditSum(Mirrored(lines)) == DebitSum(lines)
  {
    if lines != [] {
      assert Mirrored(lines)[..|lines| - 1] == Mirrored(lines[..|lines| - 1]);
      MirrorSwapsTotals(lines[..|lines| - 1]);
    }
  }

  lemma MirroredProper(chart: seq<Account>, lines: seq<Line>)
    requires Proper(chart, lines)
    ensures Proper(chart, Mirrored(lines))
  {
    hide DebitSum, CreditSum, Known;
    MirrorSwapsTotals(lines);
    forall l | l in Mirrored(lines)
      ensures OneSided(l) && Known(chart, l.account)
    {
      var i :| 0 <= i < |lines| && Mirrored(lines)[i] == l;
      assert lines[i] in lines;
    }
  }

  lemma StepKeepsProper(b: Books, s: Step)
    requires AllProper(b)
    ensures AllProper(Next(b, s)) && Next(b, s).chart == b.chart
  {
    hide DebitSum, CreditSum, Known, Prepared, Booked;
    match s
    case Post(request) =>
      if Prepared(b, request.raws).Ok? {
        PreparedKnown(b, request.raws);
      }
    case Reverse(id, date) =>
      if id < |b.entries| {
        MirroredProper(b.chart, b.entries[id].lines);
      }
    case Archive(_, _) =>
  }

  /* ---- Chains ---- */

  predicate ReversesEntry(entries: seq<Entry>, j: nat, i: nat) {
    j < |entries| && entries[j].reverses == Some(i)
  }

  /** A reversal mirrors an earlier entry of the same store, and that entry is REVERSED. */
  predicate MirrorsEarlier(entries: seq<Entry>, j: nat, i: nat)
    requires j < |entries|
  {
    && i < j && entries[i].status == Reversed
    && entries[j].lines == Mirrored(entries[i].lines) && entries[j].store == entries[i].store
    && entries[j].sourceRef == ""
  }

  ghost predicate IsReversed(entries: seq<Entry>, i: nat) {
    exists j: nat :: ReversesEntry(entries, j, i)
  }

  /** How entries hang together: what is REVERSED was reversed by one entry, its mirror image. */
  ghost predicate Linked(entries: seq<Entry>) {
    && (forall j: nat, i: nat | ReversesEntry(entries, j, i) :: MirrorsEarlier(entries, j, i))
    && (forall i: nat | i < |entries| && entries[i].status == Reversed :: IsReversed(entries, i))
    && (forall i: nat, j: nat, k: nat | ReversesEntry(entries, j, i) && ReversesEntry(entries, k, i) :: j == k)
  }

  /** No two entries hold the same source slot. */
  predicate SlotsUnique(entries: seq<Entry>) {
    forall i, j | 0 <= i < j < |entries| && entries[i].sourceRef != "" ::
      entries[i].sourceRef != entries[j].sourceRef || entries[i].sourceModule != entries[j].sourceModule
  }

  lemma {:induction false} BookedIffTaken(entries: seq<Entry>, sourceModule: string, sourceRef: string)
    ensures Booked(entries, sourceModule, sourceRef) == None
       <==> forall e | e in entries :: e.sourceModule != sourceModule || e.sourceRef != sourceRef
  {
    if entries != [] {
      assert entries == entries[..|entries| - 1] + [entries[|entries| - 1]];
      BookedIffTaken(entries[..|entries| - 1], sourceModule, sourceRef);
    }
  }

  lemma AppendKeepsLinked(entries: seq<Entry>, e: Entry)
    requires Linked(entries) && e.reverses == None && e.status == Posted
    ensures Linked(entries + [e])
  {
    var more := entries + [e];
    forall j: nat, i: nat | ReversesEntry(more, j, i)
      ensures ReversesEntry(entries, j, i) && MirrorsEarlier(more, j, i)
    {
      assert ReversesEntry(entries, j, i);
    }
    forall i: nat | i < |more| && more[i].status == Reversed
      ensures IsReversed(more, i)
    {
      assert IsReversed(entries, i);
      var j: nat :| ReversesEntry(entries, j, i);
      assert ReversesEntry(more, j, i);
    }
  }

  /** The second guard of a reversal is dead: a posted entry has no reversal yet. */
  lemma PostedHasNoReversal(entries: seq<Entry>, id: nat)
    requires Linked(entries) && id < |entries| && entries[id].status == Posted
    ensures !HasReversal(entries, id)
    ensures forall j: nat :: !ReversesEntry(entries, j, id)
  {
    forall j: nat | j < |entries|
      ensures entries[j].reverses != Some(id)
    {
      assert ReversesEntry(entries, j, id) ==> MirrorsEarlier(entries, j, id);
    }
  }

  lemma ReverseKeepsLinked(b: Books, id: nat, date: Date)
    requires Linked(b.entries) && id < |b.entries|
    ensures Linked(Reversing(b, id, date).0.entries)
  {
    var next := Reversing(b, id, date).0.entries;
    var n := |b.entries|;
    if next != b.entries {
      PostedHasNoReversal(b.entries, id);
      forall j: nat, i: nat | ReversesEntry(next, j, i)
        ensures (j == n && i == id) || (i != id && ReversesEntry(b.entries, j, i))
        ensures MirrorsEarlier(next, j, i)
      {
        assert j < n ==> ReversesEntry(b.entries, j, i);
      }
      forall i: nat | i < |next| && next[i].status == Reversed
        ensures IsReversed(next, i)
      {
        if i == id {
          assert ReversesEntry(next, n, id);
        } else {
          assert IsReversed(b.entries, i);
          var j: nat :| ReversesEntry(b.entries, j, i);
          assert ReversesEntry(next, j, i);
        }
      }
    }
  }

  lemma StepKeepsLinks(b: Books, s: Step)
    requires Linked(b.entries) && SlotsUnique(b.entries)
    ensures Linked(Next(b, s).entries) && SlotsUnique(Next(b, s).entries)
  {
    hide DebitSum, CreditSum, Prepared, Booked, Linked;
    match s
    case Post(request) =>
      var next := Next(b, s).entries;
      BookedIffTaken(b.entries, request.sourceModule, request.sourceRef);
      if next != b.entries {
        AppendKeepsLinked(b.entries, next[|next| - 1]);
        forall i | 0 <= i < |b.entries|
          ensures b.entries[i] in b.entries
        {
        }
      }
    case Reverse(id, date) =>
      if id < |b.entries| {
        ReverseKeepsLinked(b, id, date);
      }
    case Archive(_, _) =>
  }

  /** Every journal reachable by posting, reversing and archiving, over any chart. */
  lemma {:induction false} ReachableIsSound(chart: seq<Account>, steps: seq<Step>)
    ensures var b := Run(Opened(chart), steps);
            b.chart == chart && AllProper(b) && Linked(b.entries) && SlotsUnique(b.entries)
  {
    if steps != [] {
      hide AllProper, Linked, SlotsUnique;
      var b := Run(Opened(chart), steps[..|steps| - 1]);
      ReachableIsSound(chart, steps[..|steps| - 1]);
      StepKeepsProper(b, steps[|steps| - 1]);
      StepKeepsLinks(b, steps[|steps| - 1]);
    } else {
      NothingIsLinked();
    }
  }

  lemma NothingIsLinked()
    ensures Linked([])
  {
  }

  /** The entry at the start of a chain of reversals, and how many reversals lead from it to i. */
  ghost function Root(entries: seq<Entry>, i: nat): (r: nat)
    requires Linked(entries) && i < |entries|
    ensures r <= i && entries[r].reverses == None
  {
    match entries[i].reverses
    case None => i
    case Some(p) => assert ReversesEntry(entries, i, p); Root(entries, p)
  }

  ghost function Depth(entries: seq<Entry>, i: nat): nat
    requires Linked(entries) && i < |entries|
  {
    match entries[i].reverses
    case None => 0
    case Some(p) => assert ReversesEntry(entries, i, p); Depth(entries, p) + 1
  }

  /** The n-th link of a chain carries the original's lines with sides swapped n times. */
  lemma {:induction false} ChainLines(entries: seq<Entry>, i: nat)
    requires Linked(entries) && i < |entries|
    ensures var root := entries[Root(entries, i)];
            && entries[i].lines == (if Depth(entries, i) % 2 == 0 then root.lines else Mirrored(root.lines))
            && entries[i].store == root.store
  {
    if entries[i].reverses.Some? {
      var p := entries[i].reverses.value;
      assert ReversesEntry(entries, i, p);
      ChainLines(entries, p);
      assert Mirrored(Mirrored(entries[Root(entries, p)].lines)) == entries[Root(entries, p)].lines;
    }
  }

  /** Links of one chain at one depth are one link. */
  lemma {:induction false} ChainIsStraight(entries: seq<Entry>, i: nat, j: nat)
    requires Linked(entries) && i < |entries| && j < |entries|
    requires Root(entries, i) == Root(entries, j) && Depth(entries, i) == Depth(entries, j)
    ensures i == j
  {
    if entries[i].reverses.Some? {
      var p, q := entries[i].reverses.value, entries[j].reverses.value;
      assert ReversesEntry(entries, i, p) && ReversesEntry(entries, j, q);
      ChainIsStraight(entries, p, q);
    }
  }

  /** Every link of a chain but the deepest is REVERSED, so only one link is posted. */
  lemma {:induction false} ShallowerIsReversed(entries: seq<Entry>, i: nat, j: nat)
    requires Linked(entries) && i < |entries| && j < |entries|
    requires Root(entries, i) == Root(entries, j) && Depth(entries, i) < Depth(entries, j)
    ensures entries[i].status == Reversed
    decreases j
  {
    var q := entries[j].reverses.value;
    assert ReversesEntry(entries, j, q);
    if Depth(entries, q) == Depth(entries, i) {
      ChainIsStraight(entries, i, q);
    } else {
      ShallowerIsReversed(entries, i, q);
    }
  }

  lemma {:induction false} SomeLinkIsPosted(entries: seq<Entry>, i: nat) returns (tip: nat)
    requires Linked(entries) && i < |entries|
    ensures tip < |entries| && entries[tip].status == Posted
    ensures Root(entries, tip) == Root(entries, i) && Depth(entries, tip) >= Depth(entries, i)
    decreases |entries| - i
  {
    if entries[i].status == Posted {
      tip := i;
    } else {
      assert IsReversed(entries, i);
      var j: nat :| ReversesEntry(entries, j, i);
      tip := SomeLinkIsPosted(entries, j);
    }
  }

  /** Each chain has exactly one posted link, its deepest, whatever was posted or reversed before. */
  lemma ChainHasOnePostedLink(entries: seq<Entry>, i: nat)
    requires Linked(entries) && i < |entries|
    ensures exists tip: nat ::
              && tip < |entries| && entries[tip].status == Posted && Root(entries, tip) == Root(entries, i)
              && (forall j: nat | j < |entries| && Root(entries, j) == Root(entries, i) && j != tip ::
                    entries[j].status == Reversed && Depth(entries, j) < Depth(entries, tip))
  {
    var tip := SomeLinkIsPosted(entries, i);
    forall j: nat | j < |entries| && Root(entries, j) == Root(entries, i) && j != tip
      ensures entries[j].status == Reversed && Depth(entries, j) < Depth(entries, tip)
    {
      if Depth(entries, j) == Depth(entries, tip) {
        ChainIsStraight(entries, j, tip);
      } else if Depth(entries, j) < Depth(entries, tip) {
        ShallowerIsReversed(entries, j, tip);
      } else {
        ShallowerIsReversed(entries, tip, j);
      }
    }
  }

  /** What one list of lines does to one account. */
  function Net(lines: seq<Line>, code: Code): int {
    if lines == [] then 0
    else
      var last := lines[|lines| - 1];
      Net(lines[..|lines| - 1], code) + if last.account == code then last.debit - last.credit else 0
  }

  lemma {:induction false} MirrorNegates(lines: seq<Line>, code: Code)
    ensures Net(Mirrored(lines), code) == -Net(lines, code)
  {
    if lines != [] {
      assert Mirrored(lines)[..|lines| - 1] == Mirrored(lines[..|lines| - 1]);
      MirrorNegates(lines[..|lines| - 1], code);
    }
  }

  /**
   Link by link: an entry and its reversal have opposite nets on every account, so the n-th link
   has the original's net with its sign turned n times.
   */
  lemma ChainContribution(entries: seq<Entry>, tip: nat, code: Code)
    requires Linked(entries) && tip < |entries|
    ensures var original := Net(entries[Root(entries, tip)].lines, code);
            Net(entries[tip].lines, code) == if Depth(entries, tip) % 2 == 0 then original else -original
    ensures entries[tip].reverses.Some? ==>
              entries[tip].reverses.value < tip
              && Net(entries[tip].lines, code) + Net(entries[entries[tip].reverses.value].lines, code) == 0
  {
    ChainLines(entries, tip);
    MirrorNegates(entries[Root(entries, tip)].lines, code);
    if entries[tip].reverses.Some? {
      var p := entries[tip].reverses.value;
      assert ReversesEntry(entries, tip, p);
      MirrorNegates(entries[p].lines, code);
    }
  }

  /* ---- Which requests are booked ---- */

  function Quantized(raws: seq<RawLine>): (r: seq<Line>)
    ensures |r| == |raws|
    ensures forall i | 0 <= i < |r| :: r[i] == Line(raws[i].account, Dec(raws[i].debit), Dec(raws[i].credit))
  {
    seq(|raws|, i requires 0 <= i < |raws| => Line(raws[i].account, Dec(raws[i].debit), Dec(raws[i].credit)))
  }

  predicate Acceptable(b: Books, l: Line) {
    Known(b.chart, l.account) && l.account !in b.archived && (l.debit > 0) != (l.credit > 0)
  }

  lemma {:induction false} PreparedIff(b: Books, raws: seq<RawLine>)
    ensures Prepared(b, raws).Ok? ==> Prepared(b, raws).value == Quantized(raws)
    ensures Prepared(b, raws).Ok? <==> forall l | l in Quantized(raws) :: Acceptable(b, l)
  {
    hide Known, Dec;
    if raws != [] {
      var before, last := raws[..|raws| - 1], raws[|raws| - 1];
      PreparedIff(b, before);
      var lines, l := Quantized(before), Line(last.account, Dec(last.debit), Dec(last.credit));
      assert Quantized(raws) == lines + [l];
      assert l in lines + [l] && forall x :: x in lines + [l] <==> x in lines || x == l;
    }
  }

  lemma {:induction false} OneSidedTotals(lines: seq<Line>)
    requires forall l | l in lines :: OneSided(l)
    ensures DebitSum(lines) >= 0 && CreditSum(lines) >= 0
    ensures DebitSum(lines) + CreditSum(lines) >= |lines|
  {
    if lines != [] {
      assert lines == lines[..|lines| - 1] + [lines[|lines| - 1]];
      assert lines[|lines| - 1] in lines;
      OneSidedTotals(lines[..|lines| - 1]);
    }
  }

  /**
   A request makes a new entry exactly when it has two lines or more, its source is new, and
   after rounding every line is on one side of a known, active account and the sides agree.
   */
  lemma BookedExactlyWhen(b: Books, r: Request)
    ensures Posting(b, r).1.Created?
       <==> && |r.raws| >= 2
            && (r.sourceRef == "" || forall e | e in b.entries :: e.sourceModule != r.sourceModule || e.sourceRef != r.sourceRef)
            && (forall l | l in Quantized(r.raws) :: Acceptable(b, l) && OneSided(l))
            && DebitSum(Quantized(r.raws)) == CreditSum(Quantized(r.raws))
  {
    hide Prepared, Known, Booked, DebitSum, CreditSum;
    BookedIffTaken(b.entries, r.sourceModule, r.sourceRef);
    PreparedIff(b, r.raws);
    if forall l | l in Quantized(r.raws) :: OneSided(l) {
      OneSidedTotals(Quantized(r.raws));
    }
  }

  lemma {:induction false} FirstBadLine(b: Books, raws: seq<RawLine>, i: nat)
    requires i < |raws| && !Acceptable(b, Quantized(raws)[i])
    requires forall j | 0 <= j < i :: Acceptable(b, Quantized(raws)[j])
    ensures var bad := Quantized(raws)[i];
            Prepared(b, raws) == Err(if Known(b.chart, bad.account) && bad.account !in b.archived then Unbalanced else AccountUnknown)
    decreases |raws|
  {
    hide Known, Dec;
    var before := raws[..|raws| - 1];
    assert Quantized(before) == Quantized(raws)[..|raws| - 1];
    if i < |before| {
      FirstBadLine(b, before, i);
    } else {
      PreparedIff(b, before);
      forall l | l in Quantized(before)
        ensures Acceptable(b, l)
      {
        var j :| 0 <= j < |before| && Quantized(before)[j] == l;
        assert Quantized(raws)[j] == l;
      }
    }
  }

  /**
   Why a request with a bad line is refused: the first one decides, as unknown when its account is
   not in the chart or archived, else as unbalanced. When every line is acceptable the totals
   decide, and a negative side is only caught when the lines are stored.
   */
  lemma RefusedForItsLines(b: Books, r: Request, i: nat)
    requires |r.raws| >= 2 && (r.sourceRef == "" || forall e | e in b.entries :: e.sourceModule != r.sourceModule || e.sourceRef != r.sourceRef)
    ensures var lines, answer := Quantized(r.raws), Posting(b, r).1;
            && (i < |lines| && !Acceptable(b, lines[i]) && (forall j | 0 <= j < i :: Acceptable(b, lines[j])) ==>
                  answer == Refused(if Known(b.chart, lines[i].account) && lines[i].account !in b.archived then Unbalanced else AccountUnknown))
            && ((forall l | l in lines :: Acceptable(b, l)) && DebitSum(lines) != CreditSum(lines) ==> answer == Refused(Unbalanced))
            && ((forall l | l in lines :: Acceptable(b, l)) && DebitSum(lines) == CreditSum(lines) != 0 ==>
                  (exists l :: l in lines && !OneSided(l)) ==> answer == Refused(ConstraintViolated))
  {
    hide Prepared, Known, Booked, DebitSum, CreditSum, Acceptable, OneSided;
    BookedIffTaken(b.entries, r.sourceModule, r.sourceRef);
    PreparedIff(b, r.raws);
    var lines := Quantized(r.raws);
    if i < |lines| && !Acceptable(b, lines[i]) && forall j | 0 <= j < i :: Acceptable(b, lines[j]) {
      FirstBadLine(b, r.raws, i);
      assert lines[i] in lines;
    }
  }

  /** A retried webhook books nothing twice: the same source gets the entry that exists. */
  lemma ReplayReturnsTheEntry(b: Books, first: Request, again: Request)
    requires Posting(b, first).1.Created? && first.sourceRef != ""
    requires again.sourceModule == first.sourceModule && again.sourceRef == first.sourceRef && |again.raws| >= 2
    ensures var once := Posting(b, first);
            Posting(once.0, again) == (once.0, Existing(once.1.id))
  {
    hide Prepared, DebitSum, CreditSum;
    var once := Posting(b, first).0;
    assert once.entries[..|b.entries|] == b.entries;
  }
}
