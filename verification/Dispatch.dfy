/** Which field agents may be offered field work, and which of them gets it. */
module Dispatch {
  import opened Common

  const AVG_MINUTES_PER_STOP: nat := 12

  /** An active agent. Duty and store are columns of the profile, which may be missing. */
  datatype Agent = Agent(
    id: nat,
    hasProfile: bool,
    available: bool,
    profileStore: Option<nat>,
    openDeliveries: nat,
    openCollections: nat,
    openVerifications: nat
  ) {
    function Store(): Option<nat> {
      if hasProfile then profileStore else None
    }

    predicate OnDuty() {
      available || !hasProfile
    }

    function Stops(): nat {
      openDeliveries + openCollections + openVerifications
    }

    /** None when the agent is free. */
    function MinutesRemaining(): Option<nat> {
      if Stops() == 0 then None else Some(Stops() * AVG_MINUTES_PER_STOP)
    }
  }

  function Keep(p: Agent -> bool, s: seq<Agent>): (r: seq<Agent>)
    ensures forall a :: a in r <==> a in s && p(a)
    ensures r == [] <==> forall a | a in s :: !p(a)
  {
    if s == [] then []
    else
      var rest := Keep(p, s[..|s| - 1]);
      assert s == s[..|s| - 1] + [s[|s| - 1]];
      if p(s[|s| - 1]) then rest + [s[|s| - 1]] else rest
  }

  lemma KeepNext(p: Agent -> bool, s: seq<Agent>, i: nat)
    requires i < |s|
    ensures Keep(p, s[..i + 1]) == Keep(p, s[..i]) + if p(s[i]) then [s[i]] else []
  {
    assert s[..i + 1][..i] == s[..i];
  }

  /* ---- Candidates ---- */

  function OfStore(pool: seq<Agent>, store: nat): seq<Agent> {
    Keep((a: Agent) => a.Store() == Some(store), pool)
  }

  function StoreLess(pool: seq<Agent>): seq<Agent> {
    Keep((a: Agent) => a.Store() == None, pool)
  }

  /** The store's own agents, else the store-less ones; without a store, everybody. */
  function Scoped(pool: seq<Agent>, store: Option<nat>): seq<Agent> {
    if store == None then pool
    else if OfStore(pool, store.value) != [] then OfStore(pool, store.value)
    else StoreLess(pool)
  }

  function OnDutyAgents(agents: seq<Agent>): seq<Agent> {
    Keep((a: Agent) => a.OnDuty(), agents)
  }

  method ScopePool(pool: seq<Agent>, store: Option<nat>) returns (r: seq<Agent>)
    ensures r == Scoped(pool, store)
  {
    if store == None {
      return pool;
    }
    var scoped, storeless := [], [];
    for i := 0 to |pool|
      invariant scoped == OfStore(pool[..i], store.value)
      invariant storeless == StoreLess(pool[..i])
    {
      KeepNext((a: Agent) => a.Store() == Some(store.value), pool, i);
      KeepNext((a: Agent) => a.Store() == None, pool, i);
      var owner := pool[i].Store();
      if owner == None {
        storeless := storeless + [pool[i]];
      } else if owner == store {
        scoped := scoped + [pool[i]];
      }
    }
    assert pool[..|pool|] == pool;
    r := if scoped != [] then scoped else storeless;
  }

  method CandidateAgents(agents: seq<Agent>, store: Option<nat>) returns (r: seq<Agent>)
    ensures r == Scoped(OnDutyAgents(agents), store)
  {
    r := ScopePool(OnDutyAgents(agents), store);
  }

  method AssignableAgents(agents: seq<Agent>, store: Option<nat>) returns (r: seq<Agent>)
    ensures r == Scoped(agents, store)
  {
    r := ScopePool(agents, store);
  }

  method EligibleForStore(agents: seq<Agent>, agent: Agent, store: Option<nat>) returns (r: bool)
    ensures r <==> store == None || exists a :: a in Scoped(agents, store) && a.id == agent.id
  {
    if store == None {
      return true;
    }
    var pool := AssignableAgents(agents, store);
    for i := 0 to |pool|
      invariant forall j | 0 <= j < i :: pool[j].id != agent.id
    {
      if pool[i].id == agent.id {
        assert pool[i] in pool;
        return true;
      }
    }
    return false;
  }

  /** An automatic offer goes to an on-duty agent who is not another store's. */
  lemma CandidatesRespectStore(agents: seq<Agent>, store: nat, a: Agent)
    requires a in Scoped(OnDutyAgents(agents), Some(store))
    ensures a in agents && a.OnDuty()
    ensures a.Store() == Some(store) || (a.Store() == None && forall b | b in agents && b.OnDuty() :: b.Store() != Some(store))
  {
    var duty := OnDutyAgents(agents);
    if OfStore(duty, store) == [] {
      forall b | b in agents && b.OnDuty()
        ensures b.Store() != Some(store)
      {
        assert b in duty;
        assert b !in OfStore(duty, store);
      }
    }
  }

  /** On duty, as the columns of the profile have it; without a profile, always. */
  predicate MayWork(x: Agent) {
    x.available || !x.hasProfile
  }

  predicate BelongsTo(x: Agent, store: nat) {
    x.hasProfile && x.profileStore == Some(store)
  }

  predicate BelongsNowhere(x: Agent) {
    !x.hasProfile || x.profileStore == None
  }

  lemma ColumnsOf(x: Agent, store: nat)
    ensures x.OnDuty() <==> MayWork(x)
    ensures x.Store() == Some(store) <==> BelongsTo(x, store)
    ensures x.Store() == None <==> BelongsNowhere(x)
  {
  }

  lemma ScopedExactly(pool: seq<Agent>, store: nat, a: Agent)
    ensures a in Scoped(pool, Some(store))
       <==> a in pool && (BelongsTo(a, store) || (BelongsNowhere(a) && forall x | x in pool :: !BelongsTo(x, store)))
  {
    hide Keep, Agent.Store, BelongsTo, BelongsNowhere;
    ColumnsOf(a, store);
    if OfStore(pool, store) != [] {
      var x := OfStore(pool, store)[0];
      assert x in OfStore(pool, store);
      ColumnsOf(x, store);
    } else {
      forall x | x in pool
        ensures !BelongsTo(x, store)
      {
        ColumnsOf(x, store);
      }
    }
  }

  /**
   Exactly who may be offered a task of a store: agents on duty, or without a profile to say
   otherwise, who are the store's own; or, if none of the store's own is on duty, who belong to no
   store, an agent without a profile being one of those.
   */
  lemma CandidatesExactly(agents: seq<Agent>, store: nat, a: Agent)
    ensures a in Scoped(OnDutyAgents(agents), Some(store))
       <==> a in agents && MayWork(a)
            && (BelongsTo(a, store) || (BelongsNowhere(a) && forall x | x in agents && MayWork(x) :: !BelongsTo(x, store)))
  {
    hide Keep, Scoped, Agent.OnDuty, MayWork, BelongsTo, BelongsNowhere;
    var duty := OnDutyAgents(agents);
    ScopedExactly(duty, store, a);
    forall x: Agent
      ensures x in duty <==> x in agents && MayWork(x)
    {
      ColumnsOf(x, store);
    }
  }

  /**
   The automatic pool is not always part of the pool a person may choose from: it is, exactly
   when some agent of the store is on duty, or the store has no agent at all, or no store-less
   agent is on duty.
   */
  lemma CandidatesAreAssignableIff(agents: seq<Agent>, store: nat)
    ensures (forall a | a in Scoped(OnDutyAgents(agents), Some(store)) :: a in Scoped(agents, Some(store)))
       <==> || (exists a :: a in agents && a.OnDuty() && a.Store() == Some(store))
            || (forall a | a in agents :: a.Store() != Some(store))
            || (forall a | a in agents && a.OnDuty() :: a.Store() != None)
  {
    var duty := OnDutyAgents(agents);
    var offered := Scoped(duty, Some(store));
    if a :| a in agents && a.OnDuty() && a.Store() == Some(store) {
      assert a in OfStore(duty, store);
      assert a in OfStore(agents, store);
    } else if forall a | a in agents :: a.Store() != Some(store) {
      assert OfStore(agents, store) == [];
    } else if offered != [] {
      var off :| off in agents && off.Store() == Some(store);
      assert off in OfStore(agents, store);
      assert OfStore(duty, store) == [];
      assert offered[0] in offered && offered[0] !in Scoped(agents, Some(store));
    }
  }

  /** It happens: the store's only agent is off duty and a store-less one is on. */
  lemma OfferedButNotAssignable()
    ensures var own, floating := Agent(1, true, false, Some(7), 0, 0, 0), Agent(2, true, true, None, 0, 0, 0);
            && floating in Scoped(OnDutyAgents([own, floating]), Some(7))
            && floating !in Scoped([own, floating], Some(7))
  {
    var own, floating := Agent(1, true, false, Some(7), 0, 0, 0), Agent(2, true, true, None, 0, 0, 0);
    var agents := [own, floating];
    assert own in agents && floating in agents;
    assert OfStore(OnDutyAgents(agents), 7) == [];
    assert own in OfStore(agents, 7);
  }

  /* ---- Ranking ---- */

  function FreeAgents(s: seq<Agent>): seq<Agent> {
    Keep((a: Agent) => a.MinutesRemaining() == None, s)
  }

  function BusyAgents(s: seq<Agent>): seq<Agent> {
    Keep((a: Agent) => a.MinutesRemaining() != None, s)
  }

  predicate AllBusy(s: seq<Agent>) {
    forall a | a in s :: a.MinutesRemaining().Some?
  }

  /** Put one agent behind everyone who finishes no later. */
  function InsertByMinutes(s: seq<Agent>, a: Agent): (r: seq<Agent>)
    requires AllBusy(s) && a.MinutesRemaining().Some?
    ensures multiset(r) == multiset(s) + multiset{a}
    ensures forall x :: x in r <==> x in s || x == a
    ensures AllBusy(r)
  {
    if s == [] then [a]
    else
      var last := s[|s| - 1];
      assert s == s[..|s| - 1] + [last];
      assert last in s;
      if last.MinutesRemaining().value <= a.MinutesRemaining().value then s + [a]
      else InsertByMinutes(s[..|s| - 1], a) + [last]
  }

  /** The stable sort by minutes remaining. */
  function SortByMinutes(s: seq<Agent>): (r: seq<Agent>)
    requires AllBusy(s)
    ensures multiset(r) == multiset(s)
    ensures AllBusy(r)
  {
    if s == [] then []
    else
      assert s == s[..|s| - 1] + [s[|s| - 1]];
      assert s[|s| - 1] in s;
      InsertByMinutes(SortByMinutes(s[..|s| - 1]), s[|s| - 1])
  }

  predicate Soonest(s: seq<Agent>) {
    forall i, j | 0 <= i < j < |s| :: s[i].Stops() <= s[j].Stops()
  }

  lemma {:induction false} InsertKeepsSoonest(s: seq<Agent>, a: Agent)
    requires AllBusy(s) && a.MinutesRemaining().Some? && Soonest(s)
    ensures Soonest(InsertByMinutes(s, a))
  {
    if s != [] {
      var last, before := s[|s| - 1], s[..|s| - 1];
      assert last in s && s == before + [last];
      if last.MinutesRemaining().value > a.MinutesRemaining().value {
        InsertKeepsSoonest(before, a);
        var r := InsertByMinutes(before, a);
        forall i | 0 <= i < |r|
          ensures r[i].Stops() <= last.Stops()
        {
          assert r[i] in r;
          assert r[i] in before || r[i] == a;
        }
      }
    }
  }

  lemma {:induction false} SortIsSoonestFirst(s: seq<Agent>)
    requires AllBusy(s)
    ensures Soonest(SortByMinutes(s))
  {
    if s != [] {
      assert s == s[..|s| - 1] + [s[|s| - 1]];
      SortIsSoonestFirst(s[..|s| - 1]);
      InsertKeepsSoonest(SortByMinutes(s[..|s| - 1]), s[|s| - 1]);
    }
  }

  method RankForNewTask(candidates: seq<Agent>) returns (free: seq<Agent>, busy: seq<Agent>)
    ensures free == FreeAgents(candidates)
    ensures busy == SortByMinutes(BusyAgents(candidates))
  {
    free, busy := [], [];
    for i := 0 to |candidates|
      invariant free == FreeAgents(candidates[..i])
      invariant busy == BusyAgents(candidates[..i])
    {
      KeepNext((a: Agent) => a.MinutesRemaining() == None, candidates, i);
      KeepNext((a: Agent) => a.MinutesRemaining() != None, candidates, i);
      var eta := candidates[i].MinutesRemaining();
      if eta == None {
        free := free + [candidates[i]];
      } else {
        busy := busy + [candidates[i]];
      }
    }
    assert candidates[..|candidates|] == candidates;
    busy := SortByMinutes(busy);
  }

  /**
   Free means no open delivery, collection or verification; the busy come in order of how many of
   the three together they still have to do, at twelve minutes each.
   */
  lemma RankedByOpenWork(candidates: seq<Agent>, a: Agent)
    ensures var free, busy := FreeAgents(candidates), SortByMinutes(BusyAgents(candidates));
            && (a in free <==> a in candidates && a.openDeliveries == 0 && a.openCollections == 0 && a.openVerifications == 0)
            && (a in busy <==> a in candidates && a.openDeliveries + a.openCollections + a.openVerifications > 0)
            && (a in busy ==> a.MinutesRemaining() == Some(12 * (a.openDeliveries + a.openCollections + a.openVerifications)))
            && (forall i, j | 0 <= i < j < |busy| ::
                  busy[i].openDeliveries + busy[i].openCollections + busy[i].openVerifications
                  <= busy[j].openDeliveries + busy[j].openCollections + busy[j].openVerifications)
  {
    hide SortByMinutes, Keep;
    var all := BusyAgents(candidates);
    SortIsSoonestFirst(all);
    SortKeepsAgents(all, a);
  }

  lemma SortKeepsAgents(s: seq<Agent>, a: Agent)
    requires AllBusy(s)
    ensures a in SortByMinutes(s) <==> a in s
  {
    hide SortByMinutes;
    assert a in multiset(SortByMinutes(s)) <==> a in multiset(s);
  }

  /** min(agents, key=open load): the first of the least loaded. */
  function LeastLoaded(s: seq<Agent>): (r: Agent)
    requires s != []
    ensures r in s
    ensures forall a | a in s :: r.openCollections <= a.openCollections
  {
    if |s| == 1 then s[0]
    else
      var before := s[..|s| - 1];
      assert forall a | a in s :: a == s[|s| - 1] || a in before;
      var best := LeastLoaded(before);
      if best.openCollections <= s[|s| - 1].openCollections then best else s[|s| - 1]
  }

  /** Who gets a new collection. */
  function Chosen(agents: seq<Agent>): (r: Agent)
    requires agents != []
  {
    var free, busy := FreeAgents(agents), SortByMinutes(BusyAgents(agents));
    if free != [] then LeastLoaded(free)
    else if busy != [] then busy[0]
    else LeastLoaded(agents)
  }

  /** One of the two lists is never empty, so the third choice is dead code. */
  lemma SomeoneIsRanked(agents: seq<Agent>)
    requires agents != []
    ensures FreeAgents(agents) != [] || SortByMinutes(BusyAgents(agents)) != []
  {
    var a := agents[0];
    assert a in agents;
    assert a in FreeAgents(agents) || a in BusyAgents(agents);
    assert multiset(SortByMinutes(BusyAgents(agents))) == multiset(BusyAgents(agents));
  }

  /**
   A free agent always wins, and then nobody free has fewer open collections (they all have
   none); with nobody free, the choice finishes no later than anyone else.
   */
  lemma ChosenIsBest(agents: seq<Agent>)
    requires agents != []
    ensures var c := Chosen(agents);
            && c in agents
            && (c.Stops() == 0 <==> exists a :: a in agents && a.Stops() == 0)
            && (forall a | a in agents :: c.Stops() <= a.Stops())
            && (forall a | a in agents && a.Stops() == 0 :: c.openCollections <= a.openCollections)
  {
    var free, busy := FreeAgents(agents), BusyAgents(agents);
    var sorted := SortByMinutes(busy);
    SomeoneIsRanked(agents);
    SortIsSoonestFirst(busy);
    if free == [] {
      assert sorted[0] in multiset(sorted);
      forall a | a in agents
        ensures a in multiset(sorted) && sorted[0].Stops() <= a.Stops()
      {
        assert a !in free;
        assert a in busy && a in multiset(busy);
        var i :| 0 <= i < |sorted| && sorted[i] == a;
      }
    }
  }

  /* ---- Ties ---- */

  lemma {:induction false} KeepFirst(p: Agent -> bool, s: seq<Agent>, i: nat)
    requires i < |s| && p(s[i]) && forall j | 0 <= j < i :: !p(s[j])
    ensures Keep(p, s) != [] && Keep(p, s)[0] == s[i]
    decreases |s|
  {
    var before := s[..|s| - 1];
    if i < |before| {
      KeepFirst(p, before, i);
    } else {
      forall a | a in before
        ensures !p(a)
      {
        var j :| 0 <= j < |before| && before[j] == a;
        assert s[j] == a;
      }
    }
  }

  lemma {:induction false} KeepAll(p: Agent -> bool, s: seq<Agent>)
    requires forall a | a in s :: p(a)
    ensures Keep(p, s) == s
  {
    if s != [] {
      assert s == s[..|s| - 1] + [s[|s| - 1]];
      assert s[|s| - 1] in s;
      KeepAll(p, s[..|s| - 1]);
    }
  }

  lemma {:induction false} FirstOfEquals(s: seq<Agent>)
    requires s != [] && forall a | a in s :: s[0].openCollections <= a.openCollections
    ensures LeastLoaded(s) == s[0]
  {
    if |s| > 1 {
      var before := s[..|s| - 1];
      assert forall a | a in before :: a in s;
      assert s[|s| - 1] in s;
      FirstOfEquals(before);
    }
  }

  lemma InsertNext(s: seq<Agent>, a: Agent)
    requires AllBusy(s) && a.MinutesRemaining().Some?
    ensures s == [] ==> InsertByMinutes(s, a) == [a]
    ensures s != [] ==> AllBusy(s[..|s| - 1])
    ensures s != [] ==> InsertByMinutes(s, a) == if s[|s| - 1].Stops() <= a.Stops() then s + [a]
                                                 else InsertByMinutes(s[..|s| - 1], a) + [s[|s| - 1]]
  {
    hide Agent.Stops, Agent.MinutesRemaining;
    if s != [] {
      var last := s[|s| - 1];
      assert last in s;
      MinutesOf(last);
      MinutesOf(a);
      assert last.MinutesRemaining().value <= a.MinutesRemaining().value <==> last.Stops() <= a.Stops();
    }
  }

  lemma MinutesOf(a: Agent)
    ensures a.MinutesRemaining().Some? ==> a.MinutesRemaining().value == 12 * a.Stops()
  {
  }

  lemma {:induction false} InsertAtHead(s: seq<Agent>, a: Agent)
    requires AllBusy(s) && a.MinutesRemaining().Some?
    ensures InsertByMinutes(s, a) != []
    ensures (forall x | x in s :: x.Stops() > a.Stops()) ==> InsertByMinutes(s, a)[0] == a
    ensures s != [] && s[0].Stops() <= a.Stops() ==> InsertByMinutes(s, a)[0] == s[0]
  {
    hide InsertByMinutes, Agent.MinutesRemaining, Agent.Stops, AllBusy;
    InsertNext(s, a);
    if s != [] {
      var last, before := s[|s| - 1], s[..|s| - 1];
      assert last in s && forall x | x in before :: x in s;
      if last.Stops() > a.Stops() {
        InsertAtHead(before, a);
      }
    }
  }

  lemma SortNext(s: seq<Agent>)
    requires AllBusy(s) && s != []
    ensures AllBusy(s[..|s| - 1]) && s[|s| - 1].MinutesRemaining().Some? && AllBusy(SortByMinutes(s[..|s| - 1]))
    ensures SortByMinutes(s) == InsertByMinutes(SortByMinutes(s[..|s| - 1]), s[|s| - 1])
  {
    hide InsertByMinutes;
    assert s[|s| - 1] in s;
  }

  lemma {:induction false} SortHead(s: seq<Agent>, i: nat)
    requires AllBusy(s) && i < |s|
    requires forall j | 0 <= j < |s| :: if j < i then s[j].Stops() > s[i].Stops() else s[j].Stops() >= s[i].Stops()
    ensures SortByMinutes(s) != [] && SortByMinutes(s)[0] == s[i]
    decreases |s|
  {
    hide SortByMinutes, InsertByMinutes, Agent.MinutesRemaining, Agent.Stops, AllBusy;
    var before, last := s[..|s| - 1], s[|s| - 1];
    SortNext(s);
    InsertAtHead(SortByMinutes(before), last);
    assert forall j | 0 <= j < |before| :: before[j] == s[j];
    if i < |before| {
      SortHead(before, i);
    } else {
      forall x | x in SortByMinutes(before)
        ensures x.Stops() > last.Stops()
      {
        SortKeepsAgents(before, x);
        var j :| 0 <= j < |before| && before[j] == x;
      }
    }
  }

  /**
   Which agent gets a new task, ties included: the first in the pool with nothing open; with no such
   agent, the first of those with the least open.
   */
  lemma ChosenIsFirst(agents: seq<Agent>, i: nat)
    requires i < |agents|
    requires forall j | 0 <= j < |agents| ::
               var mine := agents[i].openDeliveries + agents[i].openCollections + agents[i].openVerifications;
               var other := agents[j].openDeliveries + agents[j].openCollections + agents[j].openVerifications;
               if j < i then mine < other else mine <= other
    ensures Chosen(agents) == agents[i]
  {
    hide Keep, SortByMinutes, LeastLoaded;
    assert agents[i] in agents;
    if agents[i].Stops() == 0 {
      KeepFirst((a: Agent) => a.MinutesRemaining() == None, agents, i);
      FirstOfEquals(FreeAgents(agents));
    } else {
      forall a | a in agents
        ensures a.Stops() > 0
      {
        var j :| 0 <= j < |agents| && agents[j] == a;
      }
      assert FreeAgents(agents) == [];
      KeepAll((a: Agent) => a.MinutesRemaining() != None, agents);
      SortHead(agents, i);
    }
  }
}
