/**
 What each service of a collection answers, and from where: stated on the row's columns alone, for
 any row, so that the transition table, the amounts and the refusals are all pinned from outside.
 */
module CollectionOutcomes {
  import opened Common
  import opened Dispatch
  import opened Collections
  import opened CollectionRuns

  /** The pairs of statuses one operation may go through. */
  const MOVES: set<(Status, Status)> := {
    (Requested, Assigned), (Assigned, Accepted), (Assigned, Requested), (Accepted, EnRoute),
    (EnRoute, Reached), (EnRoute, Failed), (Reached, Collected), (Reached, PartiallyCollected),
    (Reached, Failed), (Reached, Disputed), (Failed, Assigned), (Disputed, Assigned)
  }

  /**
   One operation of the services moves the status through one of these pairs or not at all; only a
   payment at the counter may jump, and it always lands on Collected.
   */
  lemma StatusMoves(c: Coll, op: Op)
    ensures var next := Step(c, op).0;
            next.status == c.status || (c.status, next.status) in MOVES || (op.StorePay? && next.status == Collected)
  {
    hide AutoAssigning, Settlement, AllowedEdge;
    match op
    case AutoAssign(pool, exclude) =>
      AssignKeepsMoney(c, pool, exclude);
      EdgesToAssigned(c.status);
    case Reject(agent, pool) => AssignKeepsMoney(Noted(c, agent, RejectedTask).(agent := None, status := Requested), pool, {agent});
    case GoEnRoute(agent) => FieldStepIff(c, agent, op);
    case Reach(agent) => FieldStepIff(c, agent, op);
    case Fail(agent) => FieldStepIff(c, agent, op);
    case Dispute(agent) => FieldStepIff(c, agent, op);
    case _ =>
  }

  lemma EdgesToAssigned(s: Status)
    ensures AllowedEdge(s, Assigned) ==> s in {Requested, Failed, Disputed}
  {
  }

  /** What the owner may do next: answer an offer, set out, arrive, give up, dispute; or repeat the step just made. */
  lemma FieldStepIff(c: Coll, agent: nat, op: Op)
    requires op in {Accept(agent), GoEnRoute(agent), Reach(agent), Fail(agent), Dispute(agent)}
    ensures var (next, outcome) := Step(c, op);
            var open := match op
                        case Accept(_) => {Assigned}
                        case GoEnRoute(_) => {Accepted, EnRoute}
                        case Reach(_) => {EnRoute, Reached}
                        case Fail(_) => {EnRoute, Reached, Failed}
                        case _ => {Reached, Disputed};
            var to := match op
                      case Accept(_) => Accepted
                      case GoEnRoute(_) => EnRoute
                      case Reach(_) => Reached
                      case Fail(_) => Failed
                      case _ => Disputed;
            && (outcome == Done <==> c.agent == Some(agent) && c.status in open)
            && (c.agent != Some(agent) ==> outcome == Refused(InsufficientPermissions))
            && next == (if outcome != Done then c
                        else if op.Accept? then c.(status := to, assignments := c.assignments + [Assignment(agent, AcceptedTask)])
                        else c.(status := to))
  {
  }

  /**
   A person may give the collection to anyone while it is unassigned, on offer, failed or disputed;
   the new agent then has it on offer, and the history says whether somebody had it before.
   */
  lemma ManualAssignmentIff(c: Coll, agent: nat)
    ensures var (next, outcome) := Step(c, ManualAssign(agent));
            if c.status in {Requested, Assigned, Failed, Disputed}
            then outcome == Done
                 && next == c.(agent := Some(agent), status := Assigned,
                               assignments := c.assignments + [Assignment(agent, if c.agent.Some? then Reassigned else ManualAssigned)])
            else outcome.Refused? && next == c
  {
  }

  /** Which answer an entered code gets: the six of them exclude each other. */
  lemma CodeAnswerIff(c: Coll, agent: nat, code: string, now: int)
    ensures var answer := Step(c, VerifyOtp(agent, code, now)).1;
            var own, late := c.agent == Some(agent), c.otp.Some? && c.otp.value.generatedAt.Some? && now - c.otp.value.generatedAt.value > 900;
            var open := own && c.otp.Some? && !c.otp.value.locked && !late;
            && (answer == Refused(InsufficientPermissions) <==> !own)
            && (answer == Refused(OtpRequired) <==> own && c.otp == None)
            && (answer == Refused(OtpExpired) <==> own && c.otp.Some? && !c.otp.value.locked && late)
            && (answer == Done <==> open && code != "" && code == c.otp.value.code)
            && (answer == Refused(InvalidOtp) <==> open && (code == "" || code != c.otp.value.code) && c.otp.value.attempts < 2)
            && (answer == Refused(OtpLocked) <==> || (own && c.otp.Some? && c.otp.value.locked)
                                                  || (open && (code == "" || code != c.otp.value.code) && c.otp.value.attempts >= 2))
  {
  }

  /** Why a code is not issued, in the order in which the reasons are looked for. */
  lemma RequestAnswerIff(c: Coll, agent: nat, tendered: Tendered, floor: int, code: string, now: int)
    ensures var answer := Step(c, RequestOtp(agent, tendered, floor, code, now)).1;
            && (answer == Refused(InsufficientPermissions) <==> c.agent != Some(agent))
            && (answer == Refused(InvalidTransition) <==> c.agent == Some(agent) && c.status != Reached)
            && (answer in {Done, Refused(AmountInvalid)} <==> c.agent == Some(agent) && c.status == Reached)
  {
  }

  /**
   What a settlement takes: the amount the customer's code was issued for, if one was; else what
   the agent tenders; else all that remains. It goes through exactly when the agent owns a verified
   collection and is with the customer, the figure tendered does not contradict the code's, and the
   amount is positive and no more than remains; and then exactly that amount is posted.
   */
  lemma CollectSettlesIff(c: Coll, agent: nat, tendered: Tendered)
    ensures var remaining := c.amount - c.collected;
            var bound := c.otp.Some? && c.otp.value.amount.Some?;
            var asked := if bound then c.otp.value.amount.value
                         else if tendered.Paise? then tendered.paise
                         else remaining;
            var (next, outcome) := Step(c, Collect(agent, tendered));
            && (outcome == Done <==> && c.agent == Some(agent) && c.otpVerified && c.status == Reached
                                     && (if bound then tendered in {Absent, Paise(asked)} else tendered != SubPaise)
                                     && 0 < asked <= remaining)
            && (outcome == Done ==> && next.receipts == c.receipts + [asked] && next.repayments == c.repayments + [asked]
                                    && next.collected == c.collected + asked
                                    && next.status == if asked == remaining then Collected else PartiallyCollected)
            && (outcome != Done ==> next == c)
            && (c.agent != Some(agent) ==> outcome == Refused(InsufficientPermissions))
            && (c.agent == Some(agent) && !c.otpVerified ==> outcome == Refused(OtpRequired))
            && (c.agent == Some(agent) && c.otpVerified && c.status != Reached ==> outcome == Refused(InvalidTransition))
  {
  }

  /** An override and no code: the agent who tenders part of the debt settles that part. */
  lemma PartAfterOverride()
    ensures var c := Run(NewCollection(100000), Arrival(1) + [ManualVerify] + [Collect(1, Paise(30000))]);
            c.receipts == [30000] && c.repayments == [30000] && c.collected == 30000 && c.status == PartiallyCollected
  {
    hide Run, Arrival, Settlement;
    var c := NewCollection(100000);
    ArrivalReaches(100000, 1);
    RunThen(c, Arrival(1), ManualVerify);
    RunThen(c, Arrival(1) + [ManualVerify], Collect(1, Paise(30000)));
    CollectSettlesIff(Run(c, Arrival(1) + [ManualVerify]), 1, Paise(30000));
  }

  /**
   A payment at the counter takes all that remains of an open collection, from any status, and is
   the agent's only where it was neither made at the store nor anonymous; a second one takes nothing.
   */
  lemma CounterPaymentTakesTheRest(c: Coll, atStore: bool, payer: Option<nat>)
    ensures var remaining := c.amount - c.collected;
            var next := Step(c, StorePay(atStore, payer)).0;
            if c.status == Collected || remaining <= 0 then next == c
            else
              && next == c.(collected := c.amount, status := Collected, agent := next.agent,
                            storePayments := c.storePayments + [remaining], repayments := c.repayments + [remaining])
              && next.agent == (if atStore || payer == None then c.agent else payer)
              && Step(next, StorePay(atStore, payer)).0 == next
  {
  }
}
