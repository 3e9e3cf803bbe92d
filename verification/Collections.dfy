/**
 Recovering a debt in cash: a status machine, a one-time code bound to an exact amount with a
 three-attempt lockout, an admin override, and a settlement that posts one repayment.
 Amounts are in paise, times in seconds. Every operation is a method that updates the stored
 row, specified by a function on the row's value.
 */
module Collections {
  import opened Common
  import opened Dispatch

  datatype Status =
    | Requested | Assigned | Accepted | EnRoute | Reached
    | Collected | PartiallyCollected | Failed | Disputed | Cancelled

  predicate AllowedEdge(from: Status, to: Status) {
    match from
    case Requested => to in {Assigned, Cancelled}
    case Assigned => to in {Accepted, Requested, Cancelled}
    case Accepted => to in {EnRoute, Cancelled}
    case EnRoute => to in {Reached, Failed}
    case Reached => to in {Collected, PartiallyCollected, Failed, Disputed}
    case Failed => to in {Assigned, Cancelled}
    case Disputed => to in {Assigned, Cancelled}
    case _ => false
  }

  datatype Error =
    | InvalidTransition | InsufficientPermissions | TaskRequired | AmountInvalid
    | OtpRequired | OtpLocked | OtpExpired | InvalidOtp

  datatype Outcome = Done | NobodyAvailable | Refused(error: Error)

  const MAX_ATTEMPTS: nat := 3
  const OTP_TTL_SECONDS: nat := 15 * 60

  /** The stored code. Rows from before these columns were enforced may lack amount and time. */
  datatype Otp = Otp(code: string, amount: Option<int>, attempts: nat, verified: bool, locked: bool, generatedAt: Option<int>)

  datatype Action = AutoAssigned | ManualAssigned | Reassigned | AcceptedTask | RejectedTask

  datatype Assignment = Assignment(agent: nat, action: Action)

  /** An amount as a caller sends it: absent, whole paise, or finer than a paisa. */
  datatype Tendered = Absent | Paise(paise: int) | SubPaise

  /** The row of a collection with its receipts, assignment history and posted repayments. */
  datatype Coll = Coll(
    agent: Option<nat>,
    amount: int,
    collected: int,
    status: Status,
    otpVerified: bool,
    manualVerification: bool,
    otp: Option<Otp>,
    assignments: seq<Assignment>,
    receipts: seq<int>,
    storePayments: seq<int>,
    repayments: seq<int>
  ) {
    function Remaining(): int {
      AtLeastZero(amount - collected)
    }
  }

  function NewCollection(amount: int): Coll {
    Coll(None, amount, 0, Requested, false, false, None, [], [], [], [])
  }

  /* ---- What each operation does to the row ---- */

  function Moved(c: Coll, to: Status): Result<Coll, Error> {
    if to != c.status && !AllowedEdge(c.status, to) then Err(InvalidTransition) else Ok(c.(status := to))
  }

  function Rejecters(assignments: seq<Assignment>): set<nat> {
    set a | a in assignments && a.action == RejectedTask :: a.agent
  }

  function Noted(c: Coll, agent: nat, action: Action): Coll {
    c.(assignments := c.assignments + [Assignment(agent, action)])
  }

  function Offerable(c: Coll, pool: seq<Agent>, exclude: set<nat>): seq<Agent> {
    var blocked := exclude + Rejecters(c.assignments);
    Keep((a: Agent) => a.id !in blocked, pool)
  }

  /** The chosen agent is saved before the transition is tried, and stays saved if it is refused. */
  function AutoAssigning(c: Coll, pool: seq<Agent>, exclude: set<nat>): (Coll, Outcome) {
    var agents := Offerable(c, pool, exclude);
    if agents == [] then (c, NobodyAvailable)
    else
      var agent := Chosen(agents).id;
      var taken := c.(agent := Some(agent));
      match Moved(taken, Assigned)
      case Err(e) => (taken, Refused(e))
      case Ok(moved) => (Noted(moved, agent, AutoAssigned), Done)
  }

  function ManuallyAssigning(c: Coll, agent: nat): (Coll, Outcome) {
    if c.status !in {Requested, Assigned, Failed, Disputed} then (c, Refused(InvalidTransition))
    else
      var action := if c.agent.Some? then Reassigned else ManualAssigned;
      (Noted(c.(agent := Some(agent), status := Assigned), agent, action), Done)
  }

  function Accepting(c: Coll, agent: nat): (Coll, Outcome) {
    if c.agent != Some(agent) then (c, Refused(InsufficientPermissions))
    else if c.status != Assigned then (c, Refused(TaskRequired))
    else (Noted(c.(status := Accepted), agent, AcceptedTask), Done)
  }

  /** Back to the pool, and straight on to the next agent who has not declined. */
  function Rejecting(c: Coll, agent: nat, pool: seq<Agent>): (Coll, Outcome) {
    if c.agent != Some(agent) then (c, Refused(InsufficientPermissions))
    else if c.status != Assigned then (c, Refused(TaskRequired))
    else
      var pooled := Noted(c, agent, RejectedTask).(agent := None, status := Requested);
      (AutoAssigning(pooled, pool, {agent}).0, Done)
  }

  /** The agent moves the collection on: en route, reached, failed, disputed. */
  function Advancing(c: Coll, agent: nat, to: Status): (Coll, Outcome) {
    if c.agent != Some(agent) then (c, Refused(InsufficientPermissions))
    else
      match Moved(c, to)
      case Err(e) => (c, Refused(e))
      case Ok(moved) => (moved, Done)
  }

  function RequestingOtp(c: Coll, agent: nat, tendered: Tendered, floor: int, code: string, now: int): (Coll, Outcome) {
    if c.agent != Some(agent) then (c, Refused(InsufficientPermissions))
    else if c.status != Reached then (c, Refused(InvalidTransition))
    else if !tendered.Paise? || tendered.paise <= 0 || tendered.paise > c.Remaining() then (c, Refused(AmountInvalid))
    // The floor never blocks clearing the whole remaining balance.
    else if floor > 0 && tendered.paise < floor && tendered.paise < c.Remaining() then (c, Refused(AmountInvalid))
    else (c.(otp := Some(Otp(code, Some(tendered.paise), 0, false, false, Some(now))), otpVerified := false), Done)
  }

  predicate Expired(otp: Otp, now: int) {
    otp.generatedAt.Some? && now - otp.generatedAt.value > OTP_TTL_SECONDS
  }

  function Verifying(c: Coll, agent: nat, code: string, now: int): (Coll, Outcome) {
    if c.agent != Some(agent) then (c, Refused(InsufficientPermissions))
    else if c.otp == None then (c, Refused(OtpRequired))
    else
      var otp := c.otp.value;
      if otp.locked then (c, Refused(OtpLocked))
      // An expired code neither verifies nor costs an attempt.
      else if Expired(otp, now) then (c, Refused(OtpExpired))
      else if code != "" && code == otp.code then
        (c.(otp := Some(otp.(verified := true)), otpVerified := true, manualVerification := false), Done)
      else if otp.attempts + 1 >= MAX_ATTEMPTS then
        (c.(otp := Some(otp.(attempts := otp.attempts + 1, locked := true)), manualVerification := true), Refused(OtpLocked))
      else (c.(otp := Some(otp.(attempts := otp.attempts + 1))), Refused(InvalidOtp))
  }

  /** The figure a collection would settle, or the reason it cannot. */
  function Settlement(c: Coll, tendered: Tendered): Result<int, Error> {
    if c.otp.Some? && c.otp.value.amount.Some? then
      if tendered != Absent && tendered != Paise(c.otp.value.amount.value) then Err(AmountInvalid)
      else if c.otp.value.amount.value <= 0 || c.otp.value.amount.value > c.Remaining() then Err(AmountInvalid)
      else Ok(c.otp.value.amount.value)
    else if tendered == SubPaise then Err(AmountInvalid)
    else
      var amount := if tendered.Paise? then tendered.paise else c.Remaining();
      if amount <= 0 || amount > c.Remaining() then Err(AmountInvalid) else Ok(amount)
  }

  function Settled(c: Coll, amount: int): Coll {
    var total := c.collected + amount;
    var full := total >= c.amount;
    c.(collected := total,
       otpVerified := c.otpVerified && full,
       status := if full then Collected else PartiallyCollected,
       receipts := c.receipts + [amount],
       repayments := c.repayments + [amount])
  }

  function Collecting(c: Coll, agent: nat, tendered: Tendered): (Coll, Outcome) {
    if c.agent != Some(agent) then (c, Refused(InsufficientPermissions))
    else if !c.otpVerified then (c, Refused(OtpRequired))
    else if c.status != Reached then (c, Refused(InvalidTransition))
    else
      match Settlement(c, tendered)
      case Err(e) => (c, Refused(e))
      case Ok(amount) => (Settled(c, amount), Done)
  }

  /** Admin override of the code: the lock and its count are cleared with it. */
  function Overriding(c: Coll): (Coll, Outcome) {
    var otp := if c.otp.Some? && c.otp.value.locked
               then Some(c.otp.value.(locked := false, attempts := 0))
               else c.otp;
    (c.(otpVerified := true, manualVerification := false, otp := otp), Done)
  }

  /** The customer pays the store directly: whatever is still outstanding, from any status. */
  function PayingStore(c: Coll, atStore: bool, payer: Option<nat>): (Coll, Outcome) {
    if c.status == Collected || c.Remaining() <= 0 then (c, Done)
    else
      (c.(collected := c.collected + c.Remaining(),
          status := Collected,
          agent := if payer.Some? && !atStore then payer else c.agent,
          storePayments := c.storePayments + [c.Remaining()],
          repayments := c.repayments + [c.Remaining()]), Done)
  }

  datatype Op =
    | AutoAssign(pool: seq<Agent>, exclude: set<nat>)
    | ManualAssign(agent: nat)
    | Accept(agent: nat)
    | Reject(agent: nat, pool: seq<Agent>)
    | GoEnRoute(agent: nat)
    | Reach(agent: nat)
    | RequestOtp(agent: nat, tendered: Tendered, floor: int, code: string, now: int)
    | VerifyOtp(agent: nat, code: string, now: int)
    | Collect(agent: nat, tendered: Tendered)
    | Fail(agent: nat)
    | Dispute(agent: nat)
    | ManualVerify
    | StorePay(atStore: bool, payer: Option<nat>)

  function Step(c: Coll, op: Op): (Coll, Outcome) {
    match op
    case AutoAssign(pool, exclude) => AutoAssigning(c, pool, exclude)
    case ManualAssign(agent) => ManuallyAssigning(c, agent)
    case Accept(agent) => Accepting(c, agent)
    case Reject(agent, pool) => Rejecting(c, agent, pool)
    case GoEnRoute(agent) => Advancing(c, agent, EnRoute)
    case Reach(agent) => Advancing(c, agent, Reached)
    case RequestOtp(agent, tendered, floor, code, now) => RequestingOtp(c, agent, tendered, floor, code, now)
    case VerifyOtp(agent, code, now) => Verifying(c, agent, code, now)
    case Collect(agent, tendered) => Collecting(c, agent, tendered)
    case Fail(agent) => Advancing(c, agent, Failed)
    case Dispute(agent) => Advancing(c, agent, Disputed)
    case ManualVerify => Overriding(c)
    case StorePay(atStore, payer) => PayingStore(c, atStore, payer)
  }

  /* ---- The stored row and the services that update it ---- */

  class CashCollection {
    var agent: Option<nat>
    const amount: int
    var collectedAmount: int
    var status: Status
    var otpVerified: bool
    var manualVerificationRequired: bool
    var otp: Option<Otp>
    var assignments: seq<Assignment>
    var receipts: seq<int>
    var storePayments: seq<int>
    var repayments: seq<int>

    constructor (amount: int)
      ensures Row() == NewCollection(amount)
    {
      this.amount := amount;
      agent, collectedAmount, status := None, 0, Requested;
      otpVerified, manualVerificationRequired, otp := false, false, None;
      assignments, receipts, storePayments, repayments := [], [], [], [];
    }

    function Row(): Coll
      reads this
    {
      Coll(agent, amount, collectedAmount, status, otpVerified, manualVerificationRequired, otp,
           assignments, receipts, storePayments, repayments)
    }

    function Remaining(): int
      reads this
    {
      AtLeastZero(amount - collectedAmount)
    }

    method Transition(to: Status) returns (r: Outcome)
      modifies this`status
      ensures match Moved(old(Row()), to)
              case Ok(c) => r == Done && Row() == c
              case Err(e) => r == Refused(e) && Row() == old(Row())
    {
      if to != status && !AllowedEdge(status, to) {
        return Refused(InvalidTransition);
      }
      status := to;
      return Done;
    }

    method RecordAssignment(caller: nat, action: Action)
      modifies this`assignments
      ensures Row() == Noted(old(Row()), caller, action)
    {
      assignments := assignments + [Assignment(caller, action)];
    }

    method AutoAssign(pool: seq<Agent>, exclude: set<nat>) returns (r: Outcome)
      modifies this
      ensures (Row(), r) == AutoAssigning(old(Row()), pool, exclude)
    {
      var blocked := exclude + Rejecters(assignments);
      var agents := Keep((a: Agent) => a.id !in blocked, pool);
      assert agents == Offerable(Row(), pool, exclude);
      if agents == [] {
        return NobodyAvailable;
      }
      var free, busy := RankForNewTask(agents);
      SomeoneIsRanked(agents);
      var chosen := if free != [] then LeastLoaded(free) else busy[0];
      assert chosen == Chosen(agents);
      agent := Some(chosen.id);
      r := Transition(Assigned);
      if r != Done {
        return;
      }
      RecordAssignment(chosen.id, AutoAssigned);
    }

    method ManualAssign(to: nat) returns (r: Outcome)
      modifies this
      ensures (Row(), r) == ManuallyAssigning(old(Row()), to)
    {
      if status !in {Requested, Assigned, Failed, Disputed} {
        return Refused(InvalidTransition);
      }
      var action := if agent.Some? then Reassigned else ManualAssigned;
      agent := Some(to);
      if status != Assigned {
        r := Transition(Assigned);
      }
      RecordAssignment(to, action);
      return Done;
    }

    method Accept(caller: nat) returns (r: Outcome)
      modifies this
      ensures (Row(), r) == Accepting(old(Row()), caller)
    {
      if agent != Some(caller) {
        return Refused(InsufficientPermissions);
      }
      if status != Assigned {
        return Refused(TaskRequired);
      }
      r := Transition(Accepted);
      RecordAssignment(caller, AcceptedTask);
    }

    method Reject(caller: nat, pool: seq<Agent>) returns (r: Outcome)
      modifies this
      ensures (Row(), r) == Rejecting(old(Row()), caller, pool)
    {
      if agent != Some(caller) {
        return Refused(InsufficientPermissions);
      }
      if status != Assigned {
        return Refused(TaskRequired);
      }
      RecordAssignment(caller, RejectedTask);
      agent := None;
      r := Transition(Requested);
      var reassigned := AutoAssign(pool, {caller});
      return Done;
    }

    /** en_route, reach, fail and dispute differ only in the status they move to. */
    method Advance(caller: nat, to: Status) returns (r: Outcome)
      modifies this`status
      ensures (Row(), r) == Advancing(old(Row()), caller, to)
    {
      if agent != Some(caller) {
        return Refused(InsufficientPermissions);
      }
      r := Transition(to);
    }

    method RequestCollectionOtp(caller: nat, tendered: Tendered, floor: int, code: string, now: int) returns (r: Outcome)
      modifies this
      ensures (Row(), r) == RequestingOtp(old(Row()), caller, tendered, floor, code, now)
    {
      if agent != Some(caller) {
        return Refused(InsufficientPermissions);
      }
      if status != Reached {
        return Refused(InvalidTransition);
      }
      match tendered
      case Paise(amt) =>
        if amt <= 0 || amt > Remaining() {
          return Refused(AmountInvalid);
        }
        if floor > 0 && amt < floor && amt < Remaining() {
          return Refused(AmountInvalid);
        }
        otp := Some(Otp(code, Some(amt), 0, false, false, Some(now)));
        otpVerified := false;
        return Done;
      case _ =>
        return Refused(AmountInvalid);
    }

    method VerifyOtp(caller: nat, code: string, now: int) returns (r: Outcome)
      modifies this
      ensures (Row(), r) == Verifying(old(Row()), caller, code, now)
    {
      if agent != Some(caller) {
        return Refused(InsufficientPermissions);
      }
      if otp == None {
        return Refused(OtpRequired);
      }
      if otp.value.locked {
        return Refused(OtpLocked);
      }
      if Expired(otp.value, now) {
        return Refused(OtpExpired);
      }
      if code != "" && code == otp.value.code {
        otp := Some(otp.value.(verified := true));
        otpVerified := true;
        if manualVerificationRequired {
          manualVerificationRequired := false;
        }
        return Done;
      }
      otp := Some(otp.value.(attempts := otp.value.attempts + 1));
      if otp.value.attempts >= MAX_ATTEMPTS {
        otp := Some(otp.value.(locked := true));
        manualVerificationRequired := true;
        return Refused(OtpLocked);
      }
      return Refused(InvalidOtp);
    }

    /** The amount the customer confirmed, else what the agent tenders, else all that remains. */
    method AmountToSettle(tendered: Tendered) returns (r: Result<int, Error>)
      ensures r == Settlement(Row(), tendered)
    {
      var amt: int;
      if otp.Some? && otp.value.amount.Some? {
        amt := otp.value.amount.value;
        if tendered != Absent && tendered != Paise(amt) {
          return Err(AmountInvalid);
        }
      } else {
        match tendered
        case Absent => amt := Remaining();
        case Paise(p) => amt := p;
        case SubPaise => return Err(AmountInvalid);
      }
      if amt <= 0 || amt > Remaining() {
        return Err(AmountInvalid);
      }
      return Ok(amt);
    }

    /** Record a full or partial collection: one repayment, one receipt, one closing status. */
    method Collect(caller: nat, tendered: Tendered) returns (r: Outcome)
      modifies this
      ensures (Row(), r) == Collecting(old(Row()), caller, tendered)
    {
      hide Settlement;
      if agent != Some(caller) {
        return Refused(InsufficientPermissions);
      }
      if !otpVerified {
        return Refused(OtpRequired);
      }
      if status != Reached {
        return Refused(InvalidTransition);
      }
      var settled := AmountToSettle(tendered);
      if settled.Err? {
        return Refused(settled.error);
      }
      var amt := settled.value;
      repayments := repayments + [amt];
      receipts := receipts + [amt];
      collectedAmount := collectedAmount + amt;
      var full := collectedAmount >= amount;
      if !full {
        otpVerified := false;
      }
      r := Transition(if full then Collected else PartiallyCollected);
    }

    method ManualVerify() returns (r: Outcome)
      modifies this
      ensures (Row(), r) == Overriding(old(Row()))
    {
      otpVerified := true;
      manualVerificationRequired := false;
      if otp.Some? && otp.value.locked {
        otp := Some(otp.value.(locked := false, attempts := 0));
      }
      return Done;
    }

    /** Money paid at the counter: settles whatever is outstanding, whatever the status. */
    method CollectCash(atStore: bool, payer: Option<nat>) returns (r: Outcome)
      modifies this
      ensures (Row(), r) == PayingStore(old(Row()), atStore, payer)
    {
      if status == Collected {
        return Done;
      }
      var outstanding := Remaining();
      if outstanding <= 0 {
        return Done;
      }
      repayments := repayments + [outstanding];
      storePayments := storePayments + [outstanding];
      if payer.Some? && !atStore {
        agent := payer;
      }
      collectedAmount := collectedAmount + outstanding;
      status := Collected;
      return Done;
    }
  }
}
