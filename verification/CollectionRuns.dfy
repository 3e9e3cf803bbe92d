/** What holds over every run of collection operations from a fresh collection. */
module CollectionRuns {
  import opened Common
  import opened Dispatch
  import opened Collections

  function Run(c: Coll, ops: seq<Op>): Coll {
    if ops == [] then c else Step(Run(c, ops[..|ops| - 1]), ops[|ops| - 1]).0
  }

  /* ---- Refusals ---- */

  /**
   An automatic assignment is refused exactly when someone could take the collection and its
   status is not one an offer may start from; and the refusal still replaces the agent, unless
   the choice fell on the present one.
   */
  lemma RefusedAssignmentIsSavedIff(c: Coll, pool: seq<Agent>, exclude: set<nat>)
    ensures var r := AutoAssigning(c, pool, exclude);
            && (r.1.Refused? <==> && c.status !in {Requested, Assigned, Failed, Disputed}
                                  && exists a :: a in pool && a.id !in exclude + Rejecters(c.assignments))
            && (r.1.Refused? ==> r.1 == Refused(InvalidTransition) && r.0 == c.(agent := Some(Chosen(Offerable(c, pool, exclude)).id)))
            && (r.1.Refused? ==> (r.0 == c <==> c.agent == Some(Chosen(Offerable(c, pool, exclude)).id)))
  {
    hide Chosen, Rejecters;
  }

  /** Every other refused operation leaves the whole row as it was. */
  lemma RefusedChangesNothing(c: Coll, op: Op)
    requires Step(c, op).1.Refused? && !op.VerifyOtp? && !op.AutoAssign?
    ensures Step(c, op).0 == c
  {
    hide AutoAssigning, Verifying, Settlement;
  }

  /* ---- Money ---- */

  /** The money side of a row, whatever happened to it. */
  predicate Safe(c: Coll) {
    && c.amount > 0
    && 0 <= c.collected <= c.amount
    && Sum(c.repayments) == c.collected == Sum(c.receipts) + Sum(c.storePayments)
    && (c.status == Collected <==> c.collected == c.amount)
    && (c.status == PartiallyCollected <==> 0 < c.collected < c.amount)
    && |c.receipts| <= 1 && |c.storePayments| <= 1
    && (c.receipts == [] && c.storePayments == [] <==> c.collected == 0)
    && (c.storePayments != [] ==> c.status == Collected)
    && c.status != Cancelled
  }

  lemma AssignKeepsMoney(c: Coll, pool: seq<Agent>, exclude: set<nat>)
    ensures var next := AutoAssigning(c, pool, exclude).0;
            next == c.(agent := next.agent, status := next.status, assignments := next.assignments)
            && (next.status == c.status || (next.status == Assigned && AllowedEdge(c.status, Assigned)))
  {
    hide Chosen, Offerable;
  }

  lemma CodesKeepMoney(c: Coll, op: Op)
    requires op.RequestOtp? || op.VerifyOtp? || op.ManualVerify?
    ensures var next := Step(c, op).0;
            next == c.(otp := next.otp, otpVerified := next.otpVerified, manualVerification := next.manualVerification)
  {
  }

  lemma StepKeepsSafe(c: Coll, op: Op)
    requires Safe(c)
    ensures Safe(Step(c, op).0)
  {
    hide AutoAssigning, Collecting, PayingStore, RequestingOtp, Verifying, Overriding, Sum;
    if op.RequestOtp? || op.VerifyOtp? || op.ManualVerify? {
      CodesKeepMoney(c, op);
      return;
    }
    match op
    case AutoAssign(pool, exclude) => AssignKeepsMoney(c, pool, exclude);
    case Reject(agent, pool) => AssignKeepsMoney(Noted(c, agent, RejectedTask).(agent := None, status := Requested), pool, {agent});
    case Collect(agent, tendered) => CollectKeepsSafe(c, agent, tendered);
    case StorePay(atStore, payer) => StorePayKeepsSafe(c, atStore, payer);
    case _ =>
  }

  lemma StorePayKeepsSafe(c: Coll, atStore: bool, payer: Option<nat>)
    requires Safe(c)
    ensures Safe(PayingStore(c, atStore, payer).0)
  {
    hide Sum;
    SumNext(c.repayments, c.Remaining());
    SumNext(c.storePayments, c.Remaining());
    SumOfNothing();
  }

  lemma CollectKeepsSafe(c: Coll, agent: nat, tendered: Tendered)
    requires Safe(c)
    ensures Safe(Collecting(c, agent, tendered).0)
  {
    hide Sum;
    var r := Settlement(c, tendered);
    SumOfNothing();
    if r.Ok? {
      SumNext(c.repayments, r.value);
      SumNext(c.receipts, r.value);
    }
  }

  lemma SumOfNothing()
    ensures Sum([]) == 0
  {
  }

  /**
   From a fresh collection, under any sequence of operations with any arguments: the field
   settles at most once and the counter at most once, the collected amount is what the receipts
   and the posted repayments add up to, and the closing statuses mean what they say.
   */
  lemma {:induction false} MoneySafeOverRuns(amount: int, ops: seq<Op>)
    requires amount > 0
    ensures Safe(Run(NewCollection(amount), ops)) && Run(NewCollection(amount), ops).amount == amount
  {
    hide Safe;
    if ops != [] {
      MoneySafeOverRuns(amount, ops[..|ops| - 1]);
      StepKeepsSafe(Run(NewCollection(amount), ops[..|ops| - 1]), ops[|ops| - 1]);
      AmountIsFixed(Run(NewCollection(amount), ops[..|ops| - 1]), ops[|ops| - 1]);
    } else {
      SafeFresh(amount);
    }
  }

  lemma SafeFresh(amount: int)
    requires amount > 0
    ensures Safe(NewCollection(amount))
  {
  }

  lemma AmountIsFixed(c: Coll, op: Op)
    ensures Step(c, op).0.amount == c.amount
  {
    hide AutoAssigning, Settlement;
    match op
    case AutoAssign(pool, exclude) => AssignKeepsMoney(c, pool, exclude);
    case Reject(agent, pool) => AssignKeepsMoney(Noted(c, agent, RejectedTask).(agent := None, status := Requested), pool, {agent});
    case _ =>
  }

  /** Field operations alone settle at most once in all: after a settlement no collect succeeds. */
  lemma SettledIsFinal(c: Coll, op: Op)
    requires Safe(c) && c.status in {Collected, PartiallyCollected}
    ensures op.Collect? ==> Step(c, op).1.Refused?
    ensures !op.StorePay? ==> Step(c, op).0.status == c.status && Step(c, op).0.repayments == c.repayments
  {
    hide Safe, Chosen;
  }

  /* ---- The code binds the amount ---- */

  /**
   What an onlooker notes since the latest accepted request for a code: the wrong codes since then
   or since an override unlocked it, whether a good code or an override came, whether one came
   since the latest field settlement too, and whether a lockout, of this code or an earlier one,
   still waits for either.
   */
  datatype Watch =
    | NoRequest(overridden: bool, live: bool)
    | Since(amount: int, code: string, issued: int, wrong: nat, matched: bool, overridden: bool, live: bool, flagged: bool)

  predicate Timely(w: Watch, now: int)
    requires w.Since?
  {
    now - w.issued <= 15 * 60
  }

  /** The onlooker's rules use only what was asked, entered and when, not what the service stored. */
  function Observe(w: Watch, agent: Option<nat>, op: Op, outcome: Outcome): Watch {
    match op
    case RequestOtp(_, tendered, _, code, now) =>
      if outcome == Done && tendered.Paise? then Since(tendered.paise, code, now, 0, false, false, false, w.Since? && w.flagged) else w
    case ManualVerify =>
      // An override that ends a lockout starts the count of wrong codes afresh.
      if w.NoRequest? then NoRequest(true, true)
      else w.(overridden := true, live := true, flagged := false, wrong := if w.wrong >= MAX_ATTEMPTS then 0 else w.wrong)
    case VerifyOtp(caller, code, now) =>
      if w.Since? && agent == Some(caller) && Timely(w, now) then
        if code != "" && code == w.code then
          (if w.wrong < MAX_ATTEMPTS then w.(matched := true, live := true, flagged := false) else w)
        else w.(wrong := w.wrong + 1, flagged := w.flagged || w.wrong + 1 >= MAX_ATTEMPTS)
      else w
    case Collect(_, _) => if outcome == Done then w.(live := false) else w
    case _ => w
  }

  datatype Watched = Watched(row: Coll, watch: Watch)

  function Watching(s: Watched, ops: seq<Op>): Watched {
    if ops == [] then s
    else
      var before := Watching(s, ops[..|ops| - 1]);
      var op := ops[|ops| - 1];
      Watched(Step(before.row, op).0, Observe(before.watch, before.row.agent, op, Step(before.row, op).1))
  }

  /** A fresh collection after some operations, with its onlooker. */
  function FreshAfter(amount: int, ops: seq<Op>): Watched {
    Watching(Watched(NewCollection(amount), NoRequest(false, false)), ops)
  }

  /** The stored code is the latest request, and a verified flag has a reason. */
  predicate Bound(c: Coll, w: Watch) {
    && (c.otp.Some? <==> w.Since?)
    && (w.Since? ==>
          var otp := c.otp.value;
          && otp.code == w.code && otp.amount == Some(w.amount) && otp.generatedAt == Some(w.issued)
          && 0 < w.amount <= c.amount
          && otp.attempts == Min(w.wrong, MAX_ATTEMPTS) && (otp.locked <==> w.wrong >= MAX_ATTEMPTS))
    && (c.manualVerification <==> w.Since? && w.flagged)
    && (w.Since? && w.wrong >= MAX_ATTEMPTS ==> w.flagged)
    && (c.otpVerified ==> w.overridden || (w.Since? && w.matched))
    && (c.receipts == [] ==> (c.otpVerified <==> w.overridden || (w.Since? && w.matched)))
    && (c.status == PartiallyCollected ==> (c.otpVerified <==> w.live))
    && (c.receipts == [] ==> (w.live <==> w.overridden || (w.Since? && w.matched)) && c.status != PartiallyCollected)
    && (c.status !in {Collected, PartiallyCollected} ==> c.collected == 0)
    && c.collected >= 0
  }

  lemma AssignKeepsBound(c: Coll, w: Watch, pool: seq<Agent>, exclude: set<nat>)
    requires Bound(c, w)
    ensures Bound(AutoAssigning(c, pool, exclude).0, w)
  {
    hide AutoAssigning;
    AssignKeepsMoney(c, pool, exclude);
  }

  predicate Enters(c: Coll, agent: nat, now: int) {
    c.agent == Some(agent) && c.otp.Some? && !c.otp.value.locked && !Expired(c.otp.value, now)
  }

  /** What one timely code does to an open lock; any other changes nothing. */
  lemma EnteredCode(c: Coll, agent: nat, code: string, now: int)
    ensures var next := Verifying(c, agent, code, now).0;
            next == if !Enters(c, agent, now) then c
                    else
                      var otp := c.otp.value;
                      if code != "" && code == otp.code
                      then c.(otp := Some(otp.(verified := true)), otpVerified := true, manualVerification := false)
                      else c.(otp := Some(otp.(attempts := otp.attempts + 1, locked := otp.attempts + 1 >= MAX_ATTEMPTS)),
                              manualVerification := c.manualVerification || otp.attempts + 1 >= MAX_ATTEMPTS)
  {
  }

  lemma VerifyKeepsBound(c: Coll, w: Watch, agent: nat, code: string, now: int)
    requires Bound(c, w)
    ensures Bound(Verifying(c, agent, code, now).0, Observe(w, c.agent, VerifyOtp(agent, code, now), Verifying(c, agent, code, now).1))
  {
    hide Verifying;
    EnteredCode(c, agent, code, now);
  }

  lemma CollectKeepsBound(c: Coll, w: Watch, agent: nat, tendered: Tendered)
    requires Bound(c, w)
    ensures Bound(Collecting(c, agent, tendered).0, Observe(w, c.agent, Collect(agent, tendered), Collecting(c, agent, tendered).1))
  {
  }

  lemma OtherStepsKeepBound(c: Coll, w: Watch, op: Op)
    requires Bound(c, w)
    requires op.RequestOtp? || op.ManualVerify? || op.StorePay?
    ensures Bound(Step(c, op).0, Observe(w, c.agent, op, Step(c, op).1))
  {
    match op
    case RequestOtp(_, _, _, _, _) =>
    case ManualVerify =>
    case _ =>
  }

  lemma UnseenByOnlooker(w: Watch, agent: Option<nat>, op: Op, outcome: Outcome)
    ensures op.RequestOtp? || op.ManualVerify? || op.VerifyOtp? || op.Collect? || Observe(w, agent, op, outcome) == w
  {
  }

  lemma StepKeepsBound(c: Coll, w: Watch, op: Op)
    requires Bound(c, w)
    ensures Bound(Step(c, op).0, Observe(w, c.agent, op, Step(c, op).1))
  {
    hide AutoAssigning, RequestingOtp, Verifying, Overriding, Collecting, PayingStore, Observe;
    if op.RequestOtp? || op.ManualVerify? || op.StorePay? {
      OtherStepsKeepBound(c, w, op);
      return;
    }
    UnseenByOnlooker(w, c.agent, op, Step(c, op).1);
    match op
    case AutoAssign(pool, exclude) => AssignKeepsBound(c, w, pool, exclude);
    case Reject(agent, pool) =>
      if c.status == Assigned {
        AssignKeepsBound(Noted(c, agent, RejectedTask).(agent := None, status := Requested), w, pool, {agent});
      }
    case VerifyOtp(agent, code, now) => VerifyKeepsBound(c, w, agent, code, now);
    case Collect(agent, tendered) => CollectKeepsBound(c, w, agent, tendered);
    case _ =>
  }

  lemma {:induction false} BoundOverRuns(amount: int, ops: seq<Op>)
    ensures var s := FreshAfter(amount, ops);
            Bound(s.row, s.watch) && s.row == Run(NewCollection(amount), ops)
  {
    if ops != [] {
      hide Bound;
      BoundOverRuns(amount, ops[..|ops| - 1]);
      var before := FreshAfter(amount, ops[..|ops| - 1]);
      StepKeepsBound(before.row, before.watch, ops[|ops| - 1]);
    }
  }

  lemma CollectWhenBound(c: Coll, w: Watch, agent: nat, tendered: Tendered)
    requires Bound(c, w) && w.Since?
    ensures var r := Collecting(c, agent, tendered);
            && (r.1 == Done ==> r.0.receipts == c.receipts + [w.amount] && r.0.repayments == c.repayments + [w.amount])
            && (r.1 == Done ==> w.matched || w.overridden)
            && (r.1 == Refused(AmountInvalid)
                <==> && c.agent == Some(agent) && c.otpVerified && c.status == Reached
                     && tendered != Absent && tendered != Paise(w.amount))
  {
  }

  /**
   After any run in which a code was ever requested, a successful collection settles exactly
   the amount of the latest request; and since that request either the code it issued was
   entered in time, before a third wrong one, or an admin overrode it.
   */
  lemma SettlementIsBound(amount: int, ops: seq<Op>, agent: nat, tendered: Tendered)
    ensures var s := FreshAfter(amount, ops);
            var r := Collecting(s.row, agent, tendered);
            s.watch.Since? && r.1 == Done ==>
              && r.0.receipts == s.row.receipts + [s.watch.amount]
              && r.0.repayments == s.row.repayments + [s.watch.amount]
              && (s.watch.matched || s.watch.overridden)
  {
    hide Watching, Bound, Collecting;
    BoundOverRuns(amount, ops);
    var s := FreshAfter(amount, ops);
    if s.watch.Since? {
      CollectWhenBound(s.row, s.watch, agent, tendered);
    }
  }

  /** The settlement's own amount check is then dead: it refuses only a figure the caller contradicts. */
  lemma AmountCheckCannotFail(amount: int, ops: seq<Op>, agent: nat, tendered: Tendered)
    requires FreshAfter(amount, ops).watch.Since?
    ensures var s := FreshAfter(amount, ops);
            Collecting(s.row, agent, tendered).1 == Refused(AmountInvalid)
            <==> && s.row.agent == Some(agent) && s.row.otpVerified && s.row.status == Reached
                 && tendered != Absent && tendered != Paise(s.watch.amount)
  {
    hide Watching, Bound, Collecting;
    BoundOverRuns(amount, ops);
    CollectWhenBound(FreshAfter(amount, ops).row, FreshAfter(amount, ops).watch, agent, tendered);
  }

  /**
   An override ends a lockout: the code is no longer locked, two more wrong codes do not lock it
   again, and the assigned agent who reached the customer can settle at once, code or no code.
   */
  lemma OverrideUnblocks(c: Coll, w: Watch, agent: nat, code: string, now: int)
    requires Bound(c, w) && c.amount > 0
    requires c.otp.Some? ==> c.otp.value.locked
    ensures var open := Overriding(c).0;
            var once := Verifying(open, agent, code, now).0;
            var twice := Verifying(once, agent, code, now).0;
            && (open.otp.Some? ==> !open.otp.value.locked && !once.otp.value.locked && !twice.otp.value.locked)
            && !open.manualVerification
            && (open.agent == Some(agent) && open.status == Reached ==> Collecting(open, agent, Absent).1 == Done)
  {
  }

  /**
   From a request to the money: an agent settles an amount through a fresh code exactly when the
   collection is theirs, they are with the customer, and the amount is within what remains and
   not a partial one below the floor; unless an earlier code is still good. What is settled is
   then the amount requested, no other.
   */
  lemma FreshCodeSettlesIff(c: Coll, agent: nat, amount: int, floor: int, code: string, now: int, later: int)
    requires code != "" && later - now <= OTP_TTL_SECONDS
    ensures var asked := Step(c, RequestOtp(agent, Paise(amount), floor, code, now)).0;
            var good := Step(asked, VerifyOtp(agent, code, later)).0;
            var settled := Step(good, Collect(agent, Absent));
            var fit := && c.agent == Some(agent) && c.status == Reached
                       && 0 < amount <= c.Remaining() && (floor <= amount || amount == c.Remaining());
            && (fit ==> settled.1 == Done
                        && settled.0.receipts == c.receipts + [amount] && settled.0.collected == c.collected + amount
                        && settled.0.status == if amount == c.Remaining() then Collected else PartiallyCollected)
            && (!c.otpVerified && (c.otp.Some? ==> c.otp.value.locked || c.otp.value.code != code || Expired(c.otp.value, later)) ==>
                  (settled.1 == Done <==> fit))
  {
  }

  /**
   A locked code is a verified one exactly when a third wrong code came after a good one (or an
   override): over every run, until a settlement.
   */
  lemma LockedAndVerifiedIff(amount: int, ops: seq<Op>)
    requires FreshAfter(amount, ops).watch.Since? && FreshAfter(amount, ops).row.receipts == []
    ensures var s := FreshAfter(amount, ops);
            && s.row.otp.Some?
            && (s.row.otp.value.locked && s.row.otpVerified
                <==> s.watch.wrong >= MAX_ATTEMPTS && (s.watch.matched || s.watch.overridden))
  {
    hide Watching;
    BoundOverRuns(amount, ops);
  }

  /**
   A verification pays once: over every run, a partly settled collection counts as verified only
   by a good code or an override that came after the settlement.
   */
  lemma CodeIsSingleUse(amount: int, ops: seq<Op>)
    ensures var s := FreshAfter(amount, ops);
            s.row.status == PartiallyCollected ==> (s.row.otpVerified <==> s.watch.live)
  {
    hide Watching;
    BoundOverRuns(amount, ops);
  }

  /** A collection is flagged for an admin exactly while a lockout waits for an override or a good code, over every run. */
  lemma FlaggedWhileLockedOut(amount: int, ops: seq<Op>)
    ensures var s := FreshAfter(amount, ops);
            && (s.row.manualVerification <==> s.watch.Since? && s.watch.flagged)
            && (s.row.otp.Some? && s.row.otp.value.locked ==> s.row.manualVerification)
  {
    hide Watching;
    BoundOverRuns(amount, ops);
  }

  lemma RunThen(c: Coll, ops: seq<Op>, op: Op)
    ensures Run(c, ops + [op]) == Step(Run(c, ops), op).0
  {
    assert (ops + [op])[..|ops|] == ops;
  }

  /** The road to the customer's door. */
  function Arrival(agent: nat): seq<Op> {
    [ManualAssign(agent)] + [Accept(agent)] + [GoEnRoute(agent)] + [Reach(agent)]
  }

  lemma ArrivalReaches(amount: int, agent: nat)
    ensures var c := Run(NewCollection(amount), Arrival(agent));
            c == NewCollection(amount).(agent := Some(agent), status := Reached, assignments := c.assignments)
            && Rejecters(c.assignments) == {}
  {
    hide Run, Rejecters;
    var c := NewCollection(amount);
    var none: seq<Op> := [];
    NothingRun(c);
    RunThen(c, none, ManualAssign(agent));
    assert none + [ManualAssign(agent)] == [ManualAssign(agent)];
    RunThen(c, [ManualAssign(agent)], Accept(agent));
    RunThen(c, [ManualAssign(agent)] + [Accept(agent)], GoEnRoute(agent));
    RunThen(c, [ManualAssign(agent)] + [Accept(agent)] + [GoEnRoute(agent)], Reach(agent));
    var first, second := Assignment(agent, ManualAssigned), Assignment(agent, AcceptedTask);
    assert Run(c, Arrival(agent)).assignments == [first] + [second];
    NobodyDeclined(first, second);
  }

  lemma NothingRun(c: Coll)
    ensures Run(c, []) == c
  {
  }

  lemma NobodyDeclined(first: Assignment, second: Assignment)
    requires first.action != RejectedTask && second.action != RejectedTask
    ensures Rejecters([first] + [second]) == {}
  {
  }

  /** Three wrong codes in time lock the code and touch nothing a settlement looks at. */
  lemma ThreeWrongCodes(c: Coll, code: string)
    requires Enters(c, 1, 2) && Enters(c, 1, 3) && Enters(c, 1, 4)
    requires c.otp.value.attempts == 0 && c.otp.value.code != code
    ensures var bad := Step(Step(Step(c, VerifyOtp(1, code, 2)).0, VerifyOtp(1, code, 3)).0, VerifyOtp(1, code, 4)).0;
            bad == c.(otp := Some(c.otp.value.(attempts := MAX_ATTEMPTS, locked := true)), manualVerification := true)
  {
    hide Verifying;
    var once := Step(c, VerifyOtp(1, code, 2)).0;
    EnteredCode(c, 1, code, 2);
    EnteredCode(once, 1, code, 3);
    EnteredCode(Step(once, VerifyOtp(1, code, 3)).0, 1, code, 4);
  }

  lemma AskedAndEntered(c: Coll, amount: int)
    requires c == NewCollection(amount).(agent := Some(1), status := Reached, assignments := c.assignments) && amount > 0
    ensures var good := Step(Step(c, RequestOtp(1, Paise(amount), 0, "123456", 0)).0, VerifyOtp(1, "123456", 1)).0;
            good == c.(otp := Some(Otp("123456", Some(amount), 0, true, false, Some(0))), otpVerified := true)
  {
  }

  /** A good code, then three wrong ones: locked, still verified, and the settlement goes through. */
  lemma LockedMayBeVerified(amount: int)
    requires amount > 0
    ensures var good := Arrival(1) + [RequestOtp(1, Paise(amount), 0, "123456", 0)] + [VerifyOtp(1, "123456", 1)];
            var c := Run(NewCollection(amount), good + [VerifyOtp(1, "0", 2)] + [VerifyOtp(1, "0", 3)] + [VerifyOtp(1, "0", 4)]);
            c.otp.Some? && c.otp.value.locked && c.otpVerified && Step(c, Collect(1, Absent)).1 == Done
  {
    hide Run, Step, Arrival;
    var atDoor := Run(NewCollection(amount), Arrival(1));
    ArrivalReaches(amount, 1);
    AskedAndEntered(atDoor, amount);
    var good := Step(Step(atDoor, RequestOtp(1, Paise(amount), 0, "123456", 0)).0, VerifyOtp(1, "123456", 1)).0;
    ThreeWrongCodes(good, "0");
    FiveMore(NewCollection(amount), Arrival(1), RequestOtp(1, Paise(amount), 0, "123456", 0), VerifyOtp(1, "123456", 1),
             VerifyOtp(1, "0", 2), VerifyOtp(1, "0", 3), VerifyOtp(1, "0", 4));
    var bad := Step(Step(Step(good, VerifyOtp(1, "0", 2)).0, VerifyOtp(1, "0", 3)).0, VerifyOtp(1, "0", 4)).0;
    SettlesAtTheDoor(bad, 1);
  }

  lemma FiveMore(c: Coll, ops: seq<Op>, op1: Op, op2: Op, op3: Op, op4: Op, op5: Op)
    ensures Run(c, ops + [op1] + [op2] + [op3] + [op4] + [op5])
         == Step(Step(Step(Step(Step(Run(c, ops), op1).0, op2).0, op3).0, op4).0, op5).0
  {
    hide Run, Step;
    RunThen(c, ops, op1);
    RunThen(c, ops + [op1], op2);
    RunThen(c, ops + [op1] + [op2], op3);
    RunThen(c, ops + [op1] + [op2] + [op3], op4);
    RunThen(c, ops + [op1] + [op2] + [op3] + [op4], op5);
  }

  lemma SettlesAtTheDoor(c: Coll, agent: nat)
    requires c.agent == Some(agent) && c.otpVerified && c.status == Reached
    requires c.otp.Some? && c.otp.value.amount.Some? && 0 < c.otp.value.amount.value <= c.Remaining()
    ensures Step(c, Collect(agent, Absent)).1 == Done
  {
  }

  /* ---- Rejection ---- */

  function Ids(pool: seq<Agent>): set<nat> {
    set a | a in pool :: a.id
  }

  /** The agents of a fixed pool still to be asked, were the present agent to decline. */
  function Unasked(c: Coll, ids: set<nat>): set<nat> {
    ids - Rejecters(c.assignments) - if c.agent.Some? then {c.agent.value} else {}
  }

  /** An agent who declined is never offered the collection automatically again. */
  lemma NeverOfferedAgain(c: Coll, pool: seq<Agent>, exclude: set<nat>)
    ensures var r := AutoAssigning(c, pool, exclude);
            && (r.1 == NobodyAvailable <==> Ids(pool) <= exclude + Rejecters(c.assignments))
            && (r.1 == NobodyAvailable ==> r.0 == c)
            && (r.1 != NobodyAvailable ==>
                  r.0.agent.Some? && r.0.agent.value in Ids(pool)
                  && r.0.agent.value !in Rejecters(c.assignments) && r.0.agent.value !in exclude)
  {
    var agents := Offerable(c, pool, exclude);
    if agents != [] {
      ChosenIsBest(agents);
      var a := Chosen(agents);
      assert a in pool && a.id in Ids(pool);
    } else {
      forall i | i in Ids(pool)
        ensures i in exclude + Rejecters(c.assignments)
      {
        var a :| a in pool && a.id == i;
      }
    }
  }

  /** A refused assignment while agent 1 is with the customer: agent 1 is out, and may no longer collect. */
  lemma RefusedAssignmentTakesOver(amount: int)
    ensures var c := Run(NewCollection(amount), Arrival(1));
            var pool := [Agent(2, true, true, None, 0, 0, 0)];
            var r := AutoAssigning(c, pool, {});
            && r.1 == Refused(InvalidTransition) && r.0 == c.(agent := Some(2)) && r.0 != c
            && Step(r.0, Collect(1, Absent)).1 == Refused(InsufficientPermissions)
  {
    hide Run, AutoAssigning, Offerable, Chosen, Rejecters;
    var c := Run(NewCollection(amount), Arrival(1));
    var a := Agent(2, true, true, None, 0, 0, 0);
    ArrivalReaches(amount, 1);
    assert a in [a];
    RefusedAssignmentIsSavedIff(c, [a], {});
    NeverOfferedAgain(c, [a], {});
    assert Ids([a]) == {2};
  }

  predicate OnOffer(c: Coll) {
    c.status == Assigned && c.agent.Some?
  }

  /** The present agent declines, and the pool is asked again. */
  function Declined(c: Coll, pool: seq<Agent>): Coll
    requires OnOffer(c)
  {
    Step(c, Reject(c.agent.value, pool)).0
  }

  lemma RejectersGrow(assignments: seq<Assignment>, agent: nat, action: Action)
    ensures Rejecters(assignments + [Assignment(agent, action)])
         == Rejecters(assignments) + if action == RejectedTask then {agent} else {}
  {
    var more := assignments + [Assignment(agent, action)];
    forall x
      ensures x in Rejecters(more) <==> x in Rejecters(assignments) + if action == RejectedTask then {agent} else {}
    {
      if x in Rejecters(assignments) {
        var a :| a in assignments && a.action == RejectedTask && a.agent == x;
        assert a in more;
      }
      assert Assignment(agent, action) in more;
    }
  }

  lemma OfferStep(pooled: Coll, pool: seq<Agent>, decliner: nat)
    requires pooled.status == Requested && pooled.agent == None && decliner in Rejecters(pooled.assignments)
    ensures var r := AutoAssigning(pooled, pool, {decliner});
            if Ids(pool) <= Rejecters(pooled.assignments) then r.0 == pooled
            else OnOffer(r.0) && r.0.agent.value in Ids(pool) - Rejecters(pooled.assignments)
                 && Rejecters(r.0.assignments) == Rejecters(pooled.assignments)
  {
    hide Chosen, Offerable, Rejecters, Ids;
    var r := AutoAssigning(pooled, pool, {decliner});
    NeverOfferedAgain(pooled, pool, {decliner});
    assert {decliner} + Rejecters(pooled.assignments) == Rejecters(pooled.assignments);
    if r.1 != NobodyAvailable {
      RejectersGrow(pooled.assignments, r.0.agent.value, AutoAssigned);
    }
  }

  /** One decline: either everyone has been asked, or the offer moves to an unasked agent. */
  lemma DeclineStep(c: Coll, pool: seq<Agent>)
    requires OnOffer(c)
    ensures var next, u := Declined(c, pool), Unasked(c, Ids(pool));
            if u == {} then next.status == Requested && next.agent == None
            else OnOffer(next) && next.agent.value in u && Unasked(next, Ids(pool)) == u - {next.agent.value}
  {
    hide AutoAssigning, Rejecters, Ids;
    var agent := c.agent.value;
    var pooled := Noted(c, agent, RejectedTask).(agent := None, status := Requested);
    RejectersGrow(c.assignments, agent, RejectedTask);
    OfferStep(pooled, pool, agent);
    assert Declined(c, pool) == AutoAssigning(pooled, pool, {agent}).0;
    assert Unasked(c, Ids(pool)) == Ids(pool) - Rejecters(pooled.assignments);
  }

  /** A row on offer, and the pool as it stands (loads and duty may differ) at each decline. */
  predicate AllDecline(c: Coll, pools: seq<seq<Agent>>, ids: set<nat>)
    decreases |pools|
  {
    pools == []
    || (OnOffer(c) && Ids(pools[0]) == ids && AllDecline(Declined(c, pools[0]), pools[1..], ids))
  }

  function AfterDeclines(c: Coll, pools: seq<seq<Agent>>, ids: set<nat>): Coll
    requires AllDecline(c, pools, ids)
    decreases |pools|
  {
    if pools == [] then c else AfterDeclines(Declined(c, pools[0]), pools[1..], ids)
  }

  /**
   With a fixed set of candidates, declines in a row number at most the unasked candidates and
   the present agent; when they have all declined the collection is back in the pool, unowned.
   */
  lemma {:induction false} DecliningTerminates(c: Coll, pools: seq<seq<Agent>>, ids: set<nat>)
    requires OnOffer(c) && AllDecline(c, pools, ids)
    ensures |pools| <= |Unasked(c, ids)| + 1
    ensures var end := AfterDeclines(c, pools, ids);
            if |pools| == |Unasked(c, ids)| + 1 then end.status == Requested && end.agent == None
            else OnOffer(end) && |Unasked(end, ids)| == |Unasked(c, ids)| - |pools|
    decreases |pools|
  {
    if pools != [] {
      hide Declined, Unasked, OnOffer;
      DeclineStep(c, pools[0]);
      var next := Declined(c, pools[0]);
      if Unasked(c, ids) == {} {
        NotOnOffer(next);
        assert pools[1..] == [];
      } else {
        DecliningTerminates(next, pools[1..], ids);
      }
    }
  }

  lemma NotOnOffer(c: Coll)
    requires c.status == Requested
    ensures !OnOffer(c)
  {
  }
}
