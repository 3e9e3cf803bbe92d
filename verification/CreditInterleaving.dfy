/**
 Many clients charging one credit account. A charge is three steps: load the account row,
 check the loaded (by then possibly stale) balance, and only then lock the row and post.
 Other clients' steps may fall between any two of them.
 */
module CreditInterleaving {
  import opened Common
  import opened Calendar
  import opened CreditLedger

  type ClientId = nat

  datatype Client =
    | Idle
    | Loaded(limit: int, outstanding: int)
    | Passed(amount: int)

  datatype World = World(book: Book, clients: map<ClientId, Client>)

  datatype Event =
    | Load(c: ClientId)
    | Check(c: ClientId, eligible: bool, amount: int)
    | LockAndPost(c: ClientId, date: Day)
    | Capture(date: Day, amount: int)
    | Repay(date: Day, amount: int)
    | RefundBack(date: Day, amount: int)
    | AdjustBy(date: Day, amount: int)
    | SetLimit(limit: int)
    | CheckIntegrity

  function ClientOf(w: World, c: ClientId): Client {
    if c in w.clients then w.clients[c] else Idle
  }

  function Unlimited(w: World, date: Day, kind: EntryType, amount: int): World {
    w.(book := Posted(w.book, date, kind, amount, false).value)
  }

  function Next(w: World, e: Event): World {
    match e
    case Load(c) =>
      w.(clients := w.clients[c := Loaded(w.book.limit, w.book.outstanding)])
    case Check(c, eligible, amount) =>
      (match ClientOf(w, c)
       case Loaded(limit, outstanding) =>
         if !eligible || amount > AtLeastZero(limit - outstanding)
         then w.(clients := w.clients[c := Idle])
         else w.(clients := w.clients[c := Passed(amount)])
       case _ => w)
    case LockAndPost(c, date) =>
      (match ClientOf(w, c)
       case Passed(amount) =>
         (match Posted(w.book, date, Purchase, amount, true)
          case Ok(b) => World(b, w.clients[c := Idle])
          case Err(_) => w.(clients := w.clients[c := Idle]))
       case _ => w)
    case Capture(date, amount) => Unlimited(w, date, Purchase, amount)
    case Repay(date, amount) => Unlimited(w, date, Repayment, -amount)
    case RefundBack(date, amount) => Unlimited(w, date, Refund, -amount)
    case AdjustBy(date, amount) => Unlimited(w, date, Adjustment, amount)
    case SetLimit(limit) => if limit < 0 then w else w.(book := w.book.(limit := limit))
    case CheckIntegrity => w.(book := Reconciled(w.book))
  }

  function Play(w: World, events: seq<Event>): World {
    if events == [] then w else Next(Play(w, events[..|events| - 1]), events[|events| - 1])
  }

  /** The limit is respected, and the cache is not below what the integrity check would write. */
  predicate WithinLimit(w: World) {
    AtLeastZero(LedgerSum(w.book.entries)) <= w.book.outstanding <= w.book.limit
  }

  /** The steps that can push the balance over the limit, and when they do. */
  predicate Oversteps(w: World, e: Event) {
    match e
    case Capture(_, amount) => w.book.outstanding + amount > w.book.limit
    case AdjustBy(_, amount) => w.book.outstanding + amount > w.book.limit
    case Repay(_, amount) => w.book.outstanding - amount > w.book.limit
    case RefundBack(_, amount) => w.book.outstanding - amount > w.book.limit
    case SetLimit(limit) => 0 <= limit < w.book.outstanding
    case _ => false
  }

  lemma PostedSum(b: Book, date: Day, kind: EntryType, amount: int, enforceLimit: bool)
    requires Posted(b, date, kind, amount, enforceLimit).Ok?
    ensures LedgerSum(Posted(b, date, kind, amount, enforceLimit).value.entries) == LedgerSum(b.entries) + amount
  {
    var entries := Posted(b, date, kind, amount, enforceLimit).value.entries;
    assert entries[..|b.entries|] == b.entries;
    assert Amounts(entries)[..|b.entries|] == Amounts(b.entries);
  }

  lemma UnlimitedKeepsIff(w: World, date: Day, kind: EntryType, amount: int)
    requires WithinLimit(w)
    ensures WithinLimit(Unlimited(w, date, kind, amount)) <==> w.book.outstanding + amount <= w.book.limit
  {
    hide LedgerSum;
    PostedSum(w.book, date, kind, amount, false);
  }

  lemma ChargeKeepsLimit(w: World, c: ClientId, date: Day)
    requires WithinLimit(w)
    ensures WithinLimit(Next(w, LockAndPost(c, date)))
  {
    hide LedgerSum;
    if ClientOf(w, c).Passed? && Posted(w.book, date, Purchase, ClientOf(w, c).amount, true).Ok? {
      PostedSum(w.book, date, Purchase, ClientOf(w, c).amount, true);
    }
  }

  /** A step leaves the limit in exactly the listed cases: never a checked charge, however stale its check. */
  lemma LimitKeptIff(w: World, e: Event)
    requires WithinLimit(w)
    ensures WithinLimit(Next(w, e)) <==> !Oversteps(w, e)
  {
    hide LedgerSum, Posted;
    match e
    case LockAndPost(c, date) => ChargeKeepsLimit(w, c, date);
    case Capture(date, amount) => UnlimitedKeepsIff(w, date, Purchase, amount);
    case Repay(date, amount) => UnlimitedKeepsIff(w, date, Repayment, -amount);
    case RefundBack(date, amount) => UnlimitedKeepsIff(w, date, Refund, -amount);
    case AdjustBy(date, amount) => UnlimitedKeepsIff(w, date, Adjustment, amount);
    case _ =>
  }

  /** Checked charges, non-negative repayments and refunds, integrity checks, limits not lowered. */
  predicate Ordinary(w: World, e: Event) {
    match e
    case Capture(_, _) => false
    case AdjustBy(_, _) => false
    case Repay(_, amount) => amount >= 0
    case RefundBack(_, amount) => amount >= 0
    case SetLimit(limit) => limit >= w.book.limit
    case _ => true
  }

  predicate OrdinaryRun(w: World, events: seq<Event>) {
    forall i | 0 <= i < |events| :: Ordinary(Play(w, events[..i]), events[i])
  }

  /** Any interleaving of any number of clients keeps the debt within the limit. */
  lemma {:induction false} LimitHoldsOverRuns(w: World, events: seq<Event>)
    requires WithinLimit(w) && OrdinaryRun(w, events)
    ensures WithinLimit(Play(w, events))
  {
    if events != [] {
      var head := events[..|events| - 1];
      forall i | 0 <= i < |head|
        ensures Ordinary(Play(w, head[..i]), head[i])
      {
        assert head[..i] == events[..i];
      }
      LimitHoldsOverRuns(w, head);
      LimitKeptIff(Play(w, head), events[|events| - 1]);
    }
  }

  /**
   Whatever came before (captures over the limit, a lowered limit, a corrupt cache), a charge
   that goes through leaves the debt within the limit of that moment.
   */
  lemma ChargeLandsWithinLimit(w: World, c: ClientId, date: Day)
    requires w.book.limit >= 0
    requires Next(w, LockAndPost(c, date)).book.entries != w.book.entries
    ensures ClientOf(w, c).Passed?
    ensures var b := Next(w, LockAndPost(c, date)).book;
            0 <= b.outstanding <= b.limit == w.book.limit
            && b.outstanding == AtLeastZero(w.book.outstanding + ClientOf(w, c).amount)
  {
  }

  /** A client gets as far as the lock only by a check of an eligible account, within what the balance it loaded left free. */
  lemma PassedOnlyByCheck(w: World, e: Event, c: ClientId)
    requires ClientOf(Next(w, e), c).Passed? && ClientOf(Next(w, e), c) != ClientOf(w, c)
    ensures ClientOf(w, c).Loaded?
    ensures var free := ClientOf(w, c).limit - ClientOf(w, c).outstanding;
            e == Check(c, true, ClientOf(Next(w, e), c).amount) && ClientOf(Next(w, e), c).amount <= if free < 0 then 0 else free
  {
    hide Posted, LedgerSum;
  }

  lemma StepKeepsFaithful(w: World, e: Event)
    requires Faithful(w.book) && e != CheckIntegrity
    ensures Faithful(Next(w, e).book) && w.book.entries <= Next(w, e).book.entries
  {
    hide Chained, LastBalance;
    match e
    case LockAndPost(c, date) =>
      if ClientOf(w, c).Passed? && Posted(w.book, date, Purchase, ClientOf(w, c).amount, true).Ok? {
        PostKeepsFaithful(w.book, date, Purchase, ClientOf(w, c).amount, true);
      }
    case Capture(date, amount) => PostKeepsFaithful(w.book, date, Purchase, amount, false);
    case Repay(date, amount) => PostKeepsFaithful(w.book, date, Repayment, -amount, false);
    case RefundBack(date, amount) => PostKeepsFaithful(w.book, date, Refund, -amount, false);
    case AdjustBy(date, amount) => PostKeepsFaithful(w.book, date, Adjustment, amount, false);
    case _ =>
  }

  /** No update is lost: on every interleaving of postings the cache is the last stored balance. */
  lemma {:induction false} NoLostUpdate(w: World, events: seq<Event>)
    requires Faithful(w.book) && forall i | 0 <= i < |events| :: events[i] != CheckIntegrity
    ensures Faithful(Play(w, events).book)
    ensures w.book.entries <= Play(w, events).book.entries
  {
    if events != [] {
      var head := events[..|events| - 1];
      NoLostUpdate(w, head);
      StepKeepsFaithful(Play(w, head), events[|events| - 1]);
    }
  }

  lemma PlayThen(w: World, events: seq<Event>, last: Event)
    ensures Play(w, events + [last]) == Next(Play(w, events), last)
  {
    assert (events + [last])[..|events|] == events;
  }

  lemma PlayNothing(w: World)
    ensures Play(w, []) == w
  {
  }

  /** The check before the lock is not enough: two clients pass it, the lock refuses the second. */
  lemma StaleCheckAdmitsTwo()
    ensures var w := World(Book(1000, 0, []), map[]);
            var passed := Play(w, [Load(1), Load(2), Check(1, true, 800), Check(2, true, 800)]);
            && ClientOf(passed, 1) == Passed(800) && ClientOf(passed, 2) == Passed(800)
            && Next(passed, LockAndPost(1, 1)).book.outstanding == 800
            && Next(Next(passed, LockAndPost(1, 1)), LockAndPost(2, 1)).book
               == Next(passed, LockAndPost(1, 1)).book
  {
    hide Play;
    var w := World(Book(1000, 0, []), map[]);
    var a, b, c, d := Load(1), Load(2), Check(1, true, 800), Check(2, true, 800);
    PlayNothing(w);
    PlayThen(w, [], a);
    PlayThen(w, [a], b);
    PlayThen(w, [a, b], c);
    PlayThen(w, [a, b, c], d);
    assert [] + [a] == [a] && [a] + [b] == [a, b] && [a, b] + [c] == [a, b, c] && [a, b, c] + [d] == [a, b, c, d];
    var loaded := Play(w, [a, b]);
    assert ClientOf(loaded, 1) == ClientOf(loaded, 2) == Loaded(1000, 0) && loaded.book == w.book;
    var once := Play(w, [a, b, c]);
    assert ClientOf(once, 1) == Passed(800) && ClientOf(once, 2) == Loaded(1000, 0) && once.book == w.book;
  }
}
