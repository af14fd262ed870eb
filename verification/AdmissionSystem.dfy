/**
 The controller with its callers: parked threads, granted waiters that have not woken yet, and the
 slots admitted callers hold until their AdmissionSlot goes away.
 */
module AdmissionSystem {
  import opened Wrappers
  import opened AdmissionSpec
  import opened AdmissionRuns

  /**
   parked: callers asleep in admit(); callers: by arrival ordinal, the call that parked with it;
   granted: the parked waiters whose flag is set; outcomes: the calls of admit() that returned.
   */
  datatype System = System(ctl: State, arrivals: nat, parked: map<nat, Ticket>, callers: seq<nat>, granted: set<Ticket>,
                           holders: multiset<string>, outcomes: map<nat, Outcome>)

  const START := System(EMPTY, 0, map[], [], {}, multiset{}, map[])

  /** Wake: a parked caller's wait ends, by a notification or by its deadline. Finish: an AdmissionSlot is destroyed. */
  datatype Action =
    | Call(model: string, tag: Option<string>, group: Option<string>)
    | Wake(id: nat)
    | Finish(model: string)

  ghost predicate CanAct(sys: System, act: Action) {
    match act
    case Call(_, _, _) => true
    case Wake(id) => id in sys.parked
    case Finish(model) => sys.holders[model] > 0
  }

  ghost function OnCall(cfg: Config, sys: System, model: string, reply: Reply): System {
    var ctl := AfterReply(sys.ctl, model, reply);
    match reply
    case Settled(outcome) =>
      sys.(ctl := ctl, arrivals := sys.arrivals + 1, outcomes := sys.outcomes[sys.arrivals := outcome],
           holders := if outcome == Admitted then sys.holders + multiset{model} else sys.holders)
    case Parked(ticket) =>
      sys.(ctl := ctl, arrivals := sys.arrivals + 1, parked := sys.parked[sys.arrivals := ticket],
           callers := sys.callers + [sys.arrivals])
  }

  /** The flag decides: a granted waiter is admitted however late it wakes, any other removes itself. */
  ghost function OnWake(cfg: Config, sys: System, id: nat): System
    requires id in sys.parked
  {
    var ticket := sys.parked[id];
    var woken := sys.(parked := sys.parked - {id});
    if ticket in sys.granted then
      woken.(granted := sys.granted - {ticket}, holders := sys.holders + multiset{ticket.model},
             outcomes := sys.outcomes[id := Admitted])
    else
      woken.(ctl := Next(cfg, sys.ctl, Expire(ticket)), outcomes := sys.outcomes[id := TimedOut])
  }

  ghost function OnFinish(cfg: Config, sys: System, model: string): System {
    sys.(ctl := Next(cfg, sys.ctl, Release(model)),
         holders := sys.holders - multiset{model},
         granted := match Grant(cfg, sys.ctl, Release(model))
                    case Some(t) => sys.granted + {t}
                    case None => sys.granted)
  }

  ghost function Act(cfg: Config, sys: System, act: Action): System
    requires CanAct(sys, act)
  {
    match act
    case Call(model, tag, group) => OnCall(cfg, sys, model, ReplyTo(cfg, sys.ctl, model, tag, group))
    case Wake(id) => OnWake(cfg, sys, id)
    case Finish(model) => OnFinish(cfg, sys, model)
  }

  ghost function GrantedFor(granted: set<Ticket>, model: string): set<Ticket> {
    set t | t in granted && t.model == model
  }

  /** Every slot in flight belongs to a caller that holds it or to a granted waiter about to wake. */
  ghost predicate SlotsConserved(sys: System) {
    forall m :: Count(sys.ctl.inflight, m) == sys.holders[m] + |GrantedFor(sys.granted, m)|
  }

  /** A parked caller's ticket is in the queue exactly when it has not been granted. */
  ghost predicate ParkedTickets(sys: System) {
    && |sys.callers| == sys.ctl.next
    && sys.ctl.queue !! sys.granted
    && (forall t :: t in sys.ctl.queue || t in sys.granted ==>
          && t.entry.arrival < |sys.callers|
          && sys.callers[t.entry.arrival] in sys.parked
          && sys.parked[sys.callers[t.entry.arrival]] == t)
    && (forall id :: id in sys.parked ==>
          && (sys.parked[id] in sys.ctl.queue || sys.parked[id] in sys.granted)
          && sys.callers[sys.parked[id].entry.arrival] == id)
  }

  /** Each call so far is parked or has returned, never both. */
  ghost predicate CallsAccounted(sys: System) {
    && (forall id: nat :: id < sys.arrivals <==> id in sys.parked || id in sys.outcomes)
    && (forall id :: id in sys.parked ==> id !in sys.outcomes)
  }

  ghost predicate SystemInv(cfg: Config, sys: System) {
    Inv(cfg, sys.ctl) && SlotsConserved(sys) && ParkedTickets(sys) && CallsAccounted(sys)
  }

  lemma GrantedGrows(granted: set<Ticket>, t: Ticket, m: string)
    requires t !in granted
    ensures |GrantedFor(granted + {t}, m)| == |GrantedFor(granted, m)| + (if t.model == m then 1 else 0)
  {
    if t.model == m {
      assert GrantedFor(granted + {t}, m) == GrantedFor(granted, m) + {t};
    } else {
      assert GrantedFor(granted + {t}, m) == GrantedFor(granted, m);
    }
  }

  lemma CallKeepsInv(cfg: Config, sys: System, model: string, reply: Reply)
    requires SlotsConserved(sys) && ParkedTickets(sys) && CallsAccounted(sys)
    requires reply.Settled? ==> reply.outcome != TimedOut
    requires reply.Parked? ==> reply.ticket.entry.arrival == sys.ctl.next
    ensures var sys' := OnCall(cfg, sys, model, reply);
            SlotsConserved(sys') && ParkedTickets(sys') && CallsAccounted(sys')
  {
    var sys' := OnCall(cfg, sys, model, reply);
    assert forall id :: id in sys.parked ==> id < sys.arrivals;
  }

  lemma WakeKeepsSlots(cfg: Config, sys: System, id: nat)
    requires SlotsConserved(sys) && id in sys.parked
    ensures SlotsConserved(OnWake(cfg, sys, id))
  {
    var ticket := sys.parked[id];
    var sys' := OnWake(cfg, sys, id);
    if ticket in sys.granted {
      forall m
        ensures Count(sys'.ctl.inflight, m) == sys'.holders[m] + |GrantedFor(sys'.granted, m)|
      {
        assert sys.granted == sys'.granted + {ticket};
        GrantedGrows(sys'.granted, ticket, m);
      }
    }
  }

  lemma WakeKeepsParked(cfg: Config, sys: System, id: nat)
    requires ParkedTickets(sys) && id in sys.parked
    ensures ParkedTickets(OnWake(cfg, sys, id))
  {
    var sys' := OnWake(cfg, sys, id);
    assert forall t :: t in sys'.ctl.queue || t in sys'.granted ==> t != sys.parked[id];
    assert forall i :: i in sys'.parked ==> sys.parked[i] != sys.parked[id];
  }

  lemma WakeKeepsCalls(cfg: Config, sys: System, id: nat)
    requires CallsAccounted(sys) && id in sys.parked
    ensures CallsAccounted(OnWake(cfg, sys, id))
  {
  }

  lemma FinishKeepsSlots(cfg: Config, sys: System, model: string)
    requires Inv(cfg, sys.ctl) && SlotsConserved(sys) && ParkedTickets(sys) && sys.holders[model] > 0
    ensures SlotsConserved(OnFinish(cfg, sys, model))
  {
    if Grant(cfg, sys.ctl, Release(model)).Some? {
      ReleasesAre(cfg, sys.ctl, model);
      SlotHandedOn(sys.ctl.inflight, sys.holders, sys.granted, Grant(cfg, sys.ctl, Release(model)).value);
    } else {
      FinishFreesSlot(cfg, sys, model);
    }
  }

  lemma FinishFreesSlot(cfg: Config, sys: System, model: string)
    requires Inv(cfg, sys.ctl) && SlotsConserved(sys) && sys.holders[model] > 0
    requires Grant(cfg, sys.ctl, Release(model)) == None
    ensures SlotsConserved(OnFinish(cfg, sys, model))
  {
    SlotsAfterRelease(cfg, sys.ctl.inflight, model);
  }

  /** A finishing caller's slot passes to the granted waiter; the table does not change. */
  lemma SlotHandedOn(inflight: map<string, nat>, holders: multiset<string>, granted: set<Ticket>, t: Ticket)
    requires forall m :: Count(inflight, m) == holders[m] + |GrantedFor(granted, m)|
    requires t !in granted && holders[t.model] > 0
    ensures forall m :: Count(inflight, m) == (holders - multiset{t.model})[m] + |GrantedFor(granted + {t}, m)|
  {
    forall m
      ensures Count(inflight, m) == (holders - multiset{t.model})[m] + |GrantedFor(granted + {t}, m)|
    {
      GrantedGrows(granted, t, m);
    }
  }

  lemma FinishKeepsParked(cfg: Config, sys: System, model: string)
    requires Inv(cfg, sys.ctl) && ParkedTickets(sys) && CallsAccounted(sys)
    ensures ParkedTickets(OnFinish(cfg, sys, model)) && CallsAccounted(OnFinish(cfg, sys, model))
  {
    var sys' := OnFinish(cfg, sys, model);
    assert CallsAccounted(sys');
    if Grant(cfg, sys.ctl, Release(model)).Some? {
      GrantKeepsSlots(cfg, sys.ctl, model);
      MovedToGranted(sys, sys', Grant(cfg, sys.ctl, Release(model)).value);
    }
  }

  /** A queued ticket that becomes a granted one still belongs to the same parked caller. */
  lemma MovedToGranted(sys: System, sys': System, t: Ticket)
    requires ParkedTickets(sys) && t in sys.ctl.queue
    requires sys'.callers == sys.callers && sys'.parked == sys.parked && sys'.ctl.next == sys.ctl.next
    requires sys'.ctl.queue == sys.ctl.queue - {t} && sys'.granted == sys.granted + {t}
    ensures ParkedTickets(sys')
  {
  }

  /** Conservation of slots, and one place for every call, in every state every action keeps. */
  lemma SystemInvStep(cfg: Config, sys: System, act: Action)
    requires SystemInv(cfg, sys) && CanAct(sys, act)
    ensures SystemInv(cfg, Act(cfg, sys, act))
  {
    match act {
      case Call(model, tag, group) =>
        InvStep(cfg, sys.ctl, Arrive(model, tag, group));
        CallKeepsInv(cfg, sys, model, ReplyTo(cfg, sys.ctl, model, tag, group));
      case Wake(id) =>
        InvStep(cfg, sys.ctl, Expire(sys.parked[id]));
        WakeKeepsSlots(cfg, sys, id);
        WakeKeepsParked(cfg, sys, id);
        WakeKeepsCalls(cfg, sys, id);
      case Finish(model) =>
        InvStep(cfg, sys.ctl, Release(model));
        FinishKeepsSlots(cfg, sys, model);
        FinishKeepsParked(cfg, sys, model);
    }
  }

  ghost predicate LegalActs(cfg: Config, sys: System, acts: seq<Action>)
    decreases |acts|
  {
    acts != [] ==> CanAct(sys, acts[0]) && LegalActs(cfg, Act(cfg, sys, acts[0]), acts[1..])
  }

  ghost function ActAll(cfg: Config, sys: System, acts: seq<Action>): System
    requires LegalActs(cfg, sys, acts)
    decreases |acts|
  {
    if acts == [] then sys else ActAll(cfg, Act(cfg, sys, acts[0]), acts[1..])
  }

  ghost predicate OutcomesKept(sys: System, sys': System) {
    forall id :: id in sys.outcomes ==> id in sys'.outcomes && sys'.outcomes[id] == sys.outcomes[id]
  }

  lemma OutcomeStep(cfg: Config, sys: System, act: Action)
    requires CallsAccounted(sys) && CanAct(sys, act)
    ensures OutcomesKept(sys, Act(cfg, sys, act))
  {
  }

  /**
   Over every run: slots are conserved, a parked caller is queued exactly when it is not granted,
   and a call that returned keeps the one outcome it returned with.
   */
  lemma {:induction false} SingleOutcome(cfg: Config, sys: System, acts: seq<Action>)
    requires SystemInv(cfg, sys) && LegalActs(cfg, sys, acts)
    ensures var end := ActAll(cfg, sys, acts);
            && SystemInv(cfg, end)
            && OutcomesKept(sys, end)
    decreases |acts|
  {
    if acts != [] {
      SystemInvStep(cfg, sys, acts[0]);
      OutcomeStep(cfg, sys, acts[0]);
      SingleOutcome(cfg, Act(cfg, sys, acts[0]), acts[1..]);
    }
  }

  lemma NoCalls()
    ensures CallsAccounted(START)
  {
  }

  lemma StartIsInv(cfg: Config)
    ensures SystemInv(cfg, START)
  {
    forall m
      ensures Count(START.ctl.inflight, m) == START.holders[m] + |GrantedFor(START.granted, m)|
    {
      assert GrantedFor(START.granted, m) == {};
    }
    InvHoldsInitially(cfg);
    NoCalls();
  }

  /** From the start, whatever is called, woken and finished: no call is lost and none returns twice, and no slot is. */
  lemma EveryCallEndsOnce(cfg: Config, acts: seq<Action>)
    requires LegalActs(cfg, START, acts)
    ensures var end := ActAll(cfg, START, acts);
            && (forall id: nat :: id < end.arrivals <==> id in end.parked || id in end.outcomes)
            && (forall id :: id in end.parked ==> id !in end.outcomes)
            && (forall id :: id in end.parked ==> (end.parked[id] in end.ctl.queue <==> end.parked[id] !in end.granted))
            && (forall m :: Count(end.ctl.inflight, m) == end.holders[m] + |GrantedFor(end.granted, m)|
                            <= NonNegative(cfg.cap))
  {
    StartIsInv(cfg);
    SingleOutcome(cfg, START, acts);
  }

  /** The call that arrives next was answered at once, and so. */
  ghost predicate Returned(sys: System, id: nat, outcome: Outcome) {
    id in sys.outcomes && sys.outcomes[id] == outcome
  }

  /** Over every run: who is admitted, who waits and who is refused, by what is in flight and queued. */
  lemma CallsAnswered(cfg: Config, acts: seq<Action>, model: string, tag: Option<string>, group: Option<string>)
    requires LegalActs(cfg, START, acts)
    ensures var sys := ActAll(cfg, START, acts);
            var sys', id, inflight := Act(cfg, sys, Call(model, tag, group)), sys.arrivals, sys.ctl.inflight;
            && (Returned(sys', id, Admitted) <==>
                  && Count(inflight, model) < cfg.cap
                  && (Count(inflight, model) > 0 || |inflight| < MaxDistinct(cfg.cap)))
            && (id in sys'.parked <==> Count(inflight, model) >= cfg.cap && |sys.ctl.queue| < cfg.maxQueued)
            && (Returned(sys', id, Overflowed) <==> !Returned(sys', id, Admitted) && id !in sys'.parked)
            && (id in sys'.parked ==>
                  var t := sys'.parked[id];
                  && t.model == model && t.entry.group == group && TagGives(cfg.priorities, tag, t.entry.priority)
                  && forall u :: u in sys.ctl.queue || u in sys.granted ==> u.entry.arrival < t.entry.arrival)
  {
    StartIsInv(cfg);
    SingleOutcome(cfg, START, acts);
    var sys := ActAll(cfg, START, acts);
    AnswersAre(cfg, sys.ctl, model, tag, group);
    CallIs(cfg, sys, model, ReplyTo(cfg, sys.ctl, model, tag, group));
    assert ReplyTo(cfg, sys.ctl, model, tag, group).Parked? ==>
        ReplyTo(cfg, sys.ctl, model, tag, group).ticket.entry.arrival == |sys.callers|;
  }

  /** A reply ends the call or parks it. */
  lemma CallIs(cfg: Config, sys: System, model: string, reply: Reply)
    requires CallsAccounted(sys)
    ensures var sys', id := OnCall(cfg, sys, model, reply), sys.arrivals;
            && (forall o :: Returned(sys', id, o) <==> reply == Settled(o))
            && (id in sys'.parked <==> reply.Parked?)
            && (reply.Parked? ==> sys'.parked[id] == reply.ticket)
  {
    assert sys.arrivals !in sys.parked && sys.arrivals !in sys.outcomes;
  }

  /**
   A slot given back is a holder less; it goes to a waiter of its model, which is then granted, or else there is one
   less in flight.
   */
  lemma SlotComesBack(cfg: Config, sys: System, model: string)
    requires SystemInv(cfg, sys) && CanAct(sys, Finish(model))
    ensures var sys' := Act(cfg, sys, Finish(model));
            && sys'.holders == sys.holders - multiset{model} && sys'.holders[model] == sys.holders[model] - 1
            && sys'.parked == sys.parked && sys'.outcomes == sys.outcomes
            && exists grant ::
                 && ReleaseIs(sys.ctl, model, grant, sys'.ctl)
                 && sys'.granted == match grant case Some(t) => sys.granted + {t} case None => sys.granted
  {
    ReleasesAre(cfg, sys.ctl, model);
    assert ReleaseIs(sys.ctl, model, Grant(cfg, sys.ctl, Release(model)), Act(cfg, sys, Finish(model)).ctl);
  }

  function NonNegative(n: int): nat { if n < 0 then 0 else n }

  /**
   The flag decides what a wait ends in: a granted waiter is admitted, however late it wakes, with the slot it was
   handed; one still queued leaves the queue and times out, and nothing else changes.
   */
  lemma GrantedNeverTimesOut(cfg: Config, sys: System, id: nat)
    requires SystemInv(cfg, sys) && id in sys.parked
    ensures var sys', t := OnWake(cfg, sys, id), sys.parked[id];
            && id !in sys'.parked && id in sys'.outcomes
            && (t !in sys.ctl.queue ==>
                  && sys'.outcomes[id] == Admitted && sys'.ctl == sys.ctl
                  && sys'.holders[t.model] == sys.holders[t.model] + 1)
            && (t in sys.ctl.queue ==>
                  && sys'.outcomes[id] == TimedOut && sys'.ctl == sys.ctl.(queue := sys.ctl.queue - {t})
                  && sys'.holders == sys.holders && sys'.granted == sys.granted)
  {
  }
}
