/** router/admission.hpp: the controller object; every method is one critical section under its mutex. */
module AdmissionControllers {
  import opened Wrappers
  import opened AffinitySpec
  import opened AffinityPolicies
  import opened AdmissionSpec
  import opened AdmissionRuns

  ghost function TicketSet(queue: seq<Ticket>): set<Ticket> {
    set t | t in queue
  }

  /** The queue's order: priority value first, arrival ordinal second. */
  predicate KeyLess(x: Ticket, y: Ticket) {
    x.entry.priority < y.entry.priority || (x.entry.priority == y.entry.priority && x.entry.arrival < y.entry.arrival)
  }

  /** In key order, with ordinals handed out once and below next. */
  ghost predicate Ordered(queue: seq<Ticket>, next: nat) {
    && (forall i, j :: 0 <= i < j < |queue| ==> KeyLess(queue[i], queue[j]))
    && (forall i :: 0 <= i < |queue| ==> queue[i].entry.arrival < next)
    && (forall i, j :: 0 <= i < j < |queue| ==> queue[i].entry.arrival != queue[j].entry.arrival)
  }

  method InsertByKey(queue: seq<Ticket>, ticket: Ticket) returns (r: seq<Ticket>)
    requires Ordered(queue, ticket.entry.arrival)
    ensures Ordered(r, ticket.entry.arrival + 1) && TicketSet(r) == TicketSet(queue) + {ticket}
  {
    var at := 0;
    while at < |queue| && KeyLess(queue[at], ticket)
      invariant 0 <= at <= |queue|
      invariant forall j :: 0 <= j < at ==> KeyLess(queue[j], ticket)
    {
      at := at + 1;
    }
    r := queue[..at] + [ticket] + queue[at..];
    InsertAt(queue, at, ticket);
  }

  lemma InsertAt(queue: seq<Ticket>, at: nat, ticket: Ticket)
    requires Ordered(queue, ticket.entry.arrival) && at <= |queue|
    requires forall j :: 0 <= j < at ==> KeyLess(queue[j], ticket)
    requires at < |queue| ==> !KeyLess(queue[at], ticket)
    ensures var r := queue[..at] + [ticket] + queue[at..];
            Ordered(r, ticket.entry.arrival + 1) && TicketSet(r) == TicketSet(queue) + {ticket}
  {
    InsertOrder(queue, at, ticket);
    InsertedSet(queue[..at], ticket, queue[at..]);
    assert queue == queue[..at] + queue[at..];
  }

  lemma InsertOrder(queue: seq<Ticket>, at: nat, ticket: Ticket)
    requires Ordered(queue, ticket.entry.arrival) && at <= |queue|
    requires forall j :: 0 <= j < at ==> KeyLess(queue[j], ticket)
    requires at < |queue| ==> !KeyLess(queue[at], ticket)
    ensures Ordered(queue[..at] + [ticket] + queue[at..], ticket.entry.arrival + 1)
  {
    var r := queue[..at] + [ticket] + queue[at..];
    forall j | at <= j < |queue|
      ensures KeyLess(ticket, queue[j])
    {
      assert j == at || KeyLess(queue[at], queue[j]);
    }
    forall i, j | 0 <= i < j < |r|
      ensures KeyLess(r[i], r[j]) && r[i].entry.arrival != r[j].entry.arrival
    {
      var k := if j < at then j else j - 1;
      if j != at {
        assert r[j] == queue[k];
      }
      if i < at {
        assert r[i] == queue[i];
      } else if i > at {
        assert r[i] == queue[i - 1];
      }
    }
  }

  lemma InsertedSet(left: seq<Ticket>, ticket: Ticket, right: seq<Ticket>)
    ensures TicketSet(left + [ticket] + right) == TicketSet(left + right) + {ticket}
  {
  }

  lemma QueueSize(queue: seq<Ticket>, next: nat)
    requires Ordered(queue, next)
    ensures |TicketSet(queue)| == |queue|
  {
    DistinctSize(queue);
  }

  lemma RemoveAt(queue: seq<Ticket>, at: nat, next: nat)
    requires Ordered(queue, next) && at < |queue|
    ensures Ordered(queue[..at] + queue[at + 1..], next)
    ensures TicketSet(queue[..at] + queue[at + 1..]) == TicketSet(queue) - {queue[at]}
  {
    var r := queue[..at] + queue[at + 1..];
    assert forall j :: 0 <= j < |r| ==> r[j] == queue[if j < at then j else j + 1];
    forall t | t in TicketSet(queue) - {queue[at]}
      ensures t in r
    {
      var j :| 0 <= j < |queue| && queue[j] == t;
      assert r[if j < at then j else j - 1] == t;
    }
  }

  /** The slice of the queue that one model's policy reads, and where each entry came from. */
  method Project(queue: seq<Ticket>, model: string) returns (entries: seq<Entry>, waiting: seq<nat>)
    ensures |entries| == |waiting|
    ensures Elems(entries) == Waiting(TicketSet(queue), model)
    ensures forall k :: 0 <= k < |waiting| ==> waiting[k] < |queue| && queue[waiting[k]] == Ticket(model, entries[k])
    ensures forall k, l :: 0 <= k < l < |waiting| ==> waiting[k] < waiting[l]
  {
    entries, waiting := [], [];
    for i := 0 to |queue|
      invariant |entries| == |waiting|
      invariant forall k :: 0 <= k < |waiting| ==> waiting[k] < i && queue[waiting[k]] == Ticket(model, entries[k])
      invariant forall k, l :: 0 <= k < l < |waiting| ==> waiting[k] < waiting[l]
      invariant forall j :: 0 <= j < i && queue[j].model == model ==> queue[j].entry in entries
    {
      if queue[i].model == model {
        entries := entries + [queue[i].entry];
        waiting := waiting + [i];
      }
    }
    assert forall e :: e in Waiting(TicketSet(queue), model) ==> Ticket(model, e) in queue;
    assert forall e :: e in entries ==> Ticket(model, e) in queue;
  }

  lemma ProjectedEntries(queue: seq<Ticket>, next: nat, model: string, entries: seq<Entry>, waiting: seq<nat>)
    requires Ordered(queue, next) && |entries| == |waiting|
    requires forall k :: 0 <= k < |waiting| ==> waiting[k] < |queue| && queue[waiting[k]] == Ticket(model, entries[k])
    requires forall k, l :: 0 <= k < l < |waiting| ==> waiting[k] < waiting[l]
    ensures UniqueArrivals(entries) && |Elems(entries)| == |entries|
  {
    assert forall k, l :: 0 <= k < l < |entries| ==> queue[waiting[k]].entry.arrival != queue[waiting[l]].entry.arrival;
    DistinctSize(entries);
  }

  /** AfterGrant, read off the order in which grantNext updates its tables. */
  lemma GrantInTwoUpdates(cfg: Config, s: State, model: string, S: set<Entry>, e: Entry)
    requires S == Waiting(s.queue, model) != {} && cfg.cap > 0 && !Full(cfg, s, model)
    requires e == Pick(cfg.contiguous, BurstOf(s, model), S)
    ensures GrantOf(cfg, s, model) == Some(Ticket(model, e))
    ensures var updated := s.policies[model := NextBurst(cfg.contiguous, BurstOf(s, model), S)];
            AfterGrant(cfg, s, model) ==
            WithSlot(s, Ticket(model, e)).(policies := if |S| == 1 then updated - {model} else updated)
  {
    var updated := s.policies[model := NextBurst(cfg.contiguous, BurstOf(s, model), S)];
    assert updated - {model} == s.policies - {model};
  }

  /** The bursts a policy table holds. */
  ghost function Bursts(policies: map<string, AffinityPolicy>): (b: map<string, Option<Burst>>)
    reads policies.Values
    ensures b.Keys == policies.Keys
    ensures forall m :: m in policies ==> b[m] == policies[m].burst
  {
    map m | m in policies :: policies[m].burst
  }

  lemma BurstsWithout(policies: map<string, AffinityPolicy>, model: string)
    ensures Bursts(policies - {model}) == Bursts(policies) - {model}
  {
  }

  lemma BurstsAre(policies: map<string, AffinityPolicy>, due: map<string, Option<Burst>>)
    requires due.Keys == policies.Keys && forall m :: m in policies ==> policies[m].burst == due[m]
    ensures Bursts(policies) == due
  {
  }

  /** The granted waiters after a grant that may have been made. */
  ghost function Raised(granted: set<Ticket>, grant: Option<Ticket>): set<Ticket> {
    match grant case Some(t) => granted + {t} case None => granted
  }

  class AdmissionController {
    const maxInflightPerModel: int
    const maxDistinctInflight: nat
    const maxQueued: nat
    const priorities: Priorities
    const contiguous: bool

    var inflight: map<string, nat>
    var queue: seq<Ticket>
    var policies: map<string, AffinityPolicy>
    var nextSequence: nat
    /** The waiters off the queue whose flag is set and whose caller has not woken yet. */
    var granted: set<Ticket>

    ghost const cfg: Config

    ghost function View(): State
      reads this, policies.Values
    {
      State(inflight, TicketSet(queue), Bursts(policies), nextSequence)
    }

    /**
     The fields agree with each other and with the configuration. The protocol's invariant is Inv of View():
     each method moves View() by one step of AdmissionSpec, and InvStep carries Inv over that step.
     */
    ghost predicate Valid()
      reads this, policies.Values
    {
      && cfg.cap == maxInflightPerModel && QueueLimit(cfg) == maxQueued
      && cfg.priorities == priorities && cfg.contiguous == contiguous
      && maxDistinctInflight == MaxDistinct(cfg.cap)
      && Ordered(queue, nextSequence)
      && (forall m :: m in policies ==> policies[m].contiguous == contiguous)
      && (forall m, n :: m in policies && n in policies && m != n ==> policies[m] != policies[n])
    }

    constructor (config: Config)
      ensures Valid() && fresh(policies.Values) && cfg == config && View() == EMPTY && granted == {}
    {
      cfg := config;
      maxInflightPerModel := config.cap;
      maxDistinctInflight := MaxDistinct(config.cap);
      maxQueued := QueueLimit(config);
      priorities := config.priorities;
      contiguous := config.contiguous;
      inflight, queue, policies, nextSequence, granted := map[], [], map[], 0, {};
    }

    /** Whether an arrival takes a slot at once: none is free to it while a waiter of its model is queued. */
    method FreeSlot(model: string) returns (free: bool)
      requires Valid()
      ensures free <==> HasFreeSlot(cfg, View(), model)
    {
      if maxInflightPerModel <= 0 {
        return false;
      }
      if Count(inflight, model) >= maxInflightPerModel {
        return false;
      }
      free := true;
      for i := 0 to |queue|
        invariant free
        invariant forall j :: 0 <= j < i ==> queue[j].model != model
      {
        if queue[i].model == model {
          assert queue[i].entry in Waiting(TicketSet(queue), model);
          return false;
        }
      }
      assert forall e :: e in Waiting(TicketSet(queue), model) ==> Ticket(model, e) in queue;
    }

    /** The three tags by name; anything else, and no tag, is an interactive request. */
    method PriorityOf(tag: Option<string>) returns (value: int)
      ensures value == PriorityValue(priorities, tag)
    {
      if tag.None? {
        return priorities.interactive;
      }
      if tag.value == "interactive" {
        return priorities.interactive;
      }
      if tag.value == "review" {
        return priorities.review;
      }
      if tag.value == "batch" {
        return priorities.batch;
      }
      return priorities.interactive;
    }

    /** Queues a waiter under the next ordinal. */
    method Enqueue(model: string, priority: int, group: Option<string>) returns (ticket: Ticket)
      requires Valid()
      modifies this`queue, this`nextSequence
      ensures Valid()
      ensures ticket == Ticket(model, Entry(priority, group, old(nextSequence)))
      ensures View() == AfterReply(old(View()), model, Parked(ticket))
    {
      ticket := Ticket(model, Entry(priority, group, nextSequence));
      queue := InsertByKey(queue, ticket);
      nextSequence := nextSequence + 1;
    }

    /** The critical section of admit() up to its wait, and what its answer goes by in a state that can be reached. */
    method Admit(model: string, tag: Option<string>, group: Option<string>) returns (reply: Reply)
      requires Valid()
      modifies this`inflight, this`queue, this`nextSequence
      ensures Valid()
      ensures Inv(cfg, old(View())) ==> AnswerIs(cfg, old(View()), model, tag, group, reply)
      ensures reply == ReplyTo(cfg, old(View()), model, tag, group)
      ensures View() == AfterReply(old(View()), model, reply)
    {
      ghost var s := View();
      reply := Answer(model, tag, group);
      if Inv(cfg, s) {
        AnswersAre(cfg, s, model, tag, group);
      }
    }

    /** The section itself. */
    method Answer(model: string, tag: Option<string>, group: Option<string>) returns (reply: Reply)
      requires Valid()
      modifies this`inflight, this`queue, this`nextSequence
      ensures Valid()
      ensures reply == ReplyTo(cfg, old(View()), model, tag, group)
      ensures View() == AfterReply(old(View()), model, reply)
    {
      QueueSize(queue, nextSequence);
      var free := FreeSlot(model);
      if free {
        var newKey := Count(inflight, model) == 0;
        if newKey && |inflight| >= maxDistinctInflight {
          return Settled(Overflowed);
        }
        inflight := inflight[model := Count(inflight, model) + 1];
        return Settled(Admitted);
      }
      if |queue| >= maxQueued {
        return Settled(Overflowed);
      }
      var priority := PriorityOf(tag);
      var ticket := Enqueue(model, priority, group);
      return Parked(ticket);
    }

    /** The critical section of admit() after its wait: the flag decides. */
    method Wake(ticket: Ticket) returns (outcome: Outcome)
      requires Valid()
      modifies this
      ensures Valid() && policies == old(policies)
      ensures ticket in old(granted) ==>
              outcome == Admitted && granted == old(granted) - {ticket} && View() == old(View())
      ensures ticket !in old(granted) ==>
                outcome == TimedOut && granted == old(granted) && View() == Next(cfg, old(View()), Expire(ticket))
    {
      if ticket in granted {
        granted := granted - {ticket};
        return Admitted;
      }
      var at := 0;
      while at < |queue| && queue[at] != ticket
        invariant 0 <= at <= |queue|
        invariant forall j :: 0 <= j < at ==> queue[j] != ticket
      {
        at := at + 1;
      }
      if at < |queue| {
        RemoveAt(queue, at, nextSequence);
        queue := queue[..at] + queue[at + 1..];
      }
      return TimedOut;
    }

    /** The policy of a counter key, made on first use. */
    method PolicyFor(model: string) returns (policy: AffinityPolicy)
      requires Valid()
      modifies this`policies
      ensures Valid() && fresh(policies.Values - old(policies.Values))
      ensures model in policies && policies[model] == policy
      ensures forall m :: m != model ==>
              (m in policies <==> m in old(policies)) && (m in policies ==> policies[m] == old(policies)[m])
      ensures policy.burst == BurstOf(old(View()), model)
    {
      if model !in policies {
        var made := new AffinityPolicy(contiguous);
        policies := policies[model := made];
      }
      policy := policies[model];
    }

    /** Asks the model's policy, which advances its burst. */
    method SelectFor(model: string, entries: seq<Entry>) returns (chosen: nat)
      requires Valid() && entries != [] && UniqueArrivals(entries)
      modifies this`policies, policies.Values
      ensures Valid() && chosen < |entries| && model in policies
      ensures fresh(policies.Values - old(policies.Values))
      ensures entries[chosen] == Pick(contiguous, BurstOf(old(View()), model), Elems(entries))
      ensures View() == old(View()).(policies :=
                old(View()).policies[model := NextBurst(contiguous, BurstOf(old(View()), model), Elems(entries))])
    {
      ghost var s := View();
      var policy := PolicyFor(model);
      var selected := policy.SelectNext(entries);
      BurstsAre(policies, s.policies[model := policy.burst]);
      return selected.value;
    }

    /** Takes the chosen waiter off the queue, raises its flag and counts its slot. */
    method HandOver(selected: nat)
      requires Valid() && selected < |queue|
      modifies this`inflight, this`queue, this`granted
      ensures Valid()
      ensures View() == WithSlot(old(View()), old(queue)[selected])
      ensures granted == old(granted) + {old(queue)[selected]}
    {
      var ticket := queue[selected];
      RemoveAt(queue, selected, nextSequence);
      queue := queue[..selected] + queue[selected + 1..];
      granted := granted + {ticket};
      inflight := inflight[ticket.model := Count(inflight, ticket.model) + 1];
    }

    method DropPolicy(model: string)
      requires Valid()
      modifies this`policies
      ensures Valid() && policies == old(policies) - {model}
      ensures View() == old(View()).(policies := old(View()).policies - {model})
    {
      BurstsWithout(policies, model);
      policies := policies - {model};
    }

    /** The entries are the model's waiters, each with its place in the queue. */
    ghost predicate Projected(model: string, entries: seq<Entry>, waiting: seq<nat>)
      reads this
    {
      && |entries| == |Elems(entries)| == |waiting|
      && Elems(entries) == Waiting(TicketSet(queue), model)
      && forall k :: 0 <= k < |waiting| ==> waiting[k] < |queue| && queue[waiting[k]] == Ticket(model, entries[k])
    }

    /** The waiter that gets the slot, by its place in the queue; what is left to do is the table updates. */
    method Choose(model: string, entries: seq<Entry>, waiting: seq<nat>) returns (selected: nat)
      requires Valid() && cfg.cap > 0 && !Full(cfg, View(), model)
      requires entries != [] && UniqueArrivals(entries) && Projected(model, entries, waiting)
      modifies this`policies, policies.Values
      ensures Valid() && selected < |queue|
      ensures fresh(policies.Values - old(policies.Values))
      ensures View() == old(View()).(policies := View().policies)
      ensures GrantOf(cfg, old(View()), model) == Some(queue[selected]) && queue[selected].model == model
      ensures AfterGrant(cfg, old(View()), model) ==
              WithSlot(old(View()), queue[selected]).(policies :=
                if |entries| == 1 then View().policies - {model} else View().policies)
    {
      ghost var s, S := View(), Elems(entries);
      var chosen := SelectFor(model, entries);
      selected := waiting[chosen];
      GrantInTwoUpdates(cfg, s, model, S, entries[chosen]);
    }

    /** The granting half of grantNext: some waiter gets the slot, and the last one takes its policy along. */
    method GrantAmong(model: string, entries: seq<Entry>, waiting: seq<nat>)
      requires Valid() && cfg.cap > 0 && !Full(cfg, View(), model)
      requires entries != [] && UniqueArrivals(entries) && Projected(model, entries, waiting)
      modifies this`inflight, this`queue, this`policies, this`granted, policies.Values
      ensures Valid()
      ensures fresh(policies.Values - old(policies.Values))
      ensures View() == AfterGrant(cfg, old(View()), model)
      ensures granted == Raised(old(granted), GrantOf(cfg, old(View()), model))
    {
      ghost var s := View();
      var selected := Choose(model, entries, waiting);
      FinishGrant(s, selected, |entries| == 1);
    }

    /** The table updates that follow the choice. */
    method FinishGrant(ghost s: State, selected: nat, last: bool)
      requires Valid() && selected < |queue| && View() == s.(policies := View().policies)
      modifies this`inflight, this`queue, this`policies, this`granted
      ensures Valid()
      ensures policies.Values <= old(policies.Values)
      ensures var t := old(queue)[selected];
              && View() == WithSlot(s, t).(policies :=
                             if last then old(View()).policies - {t.model} else old(View()).policies)
              && granted == old(granted) + {t}
    {
      var model := queue[selected].model;
      HandOver(selected);
      if last {
        DropPolicy(model);
      }
    }

    /** Hands a slot of the model to the waiter its policy picks, if there is one of each. */
    method GrantNext(model: string)
      requires Valid()
      modifies this`inflight, this`queue, this`policies, this`granted, policies.Values
      ensures Valid()
      ensures fresh(policies.Values - old(policies.Values))
      ensures View() == AfterGrant(cfg, old(View()), model)
      ensures granted == Raised(old(granted), GrantOf(cfg, old(View()), model))
    {
      if maxInflightPerModel <= 0 {
        return;
      }
      if Count(inflight, model) >= maxInflightPerModel {
        return;
      }
      GrantWaiting(model);
    }

    /** grantNext past its guards: there is a slot. */
    method GrantWaiting(model: string)
      requires Valid() && cfg.cap > 0 && !Full(cfg, View(), model)
      modifies this`inflight, this`queue, this`policies, this`granted, policies.Values
      ensures Valid()
      ensures fresh(policies.Values - old(policies.Values))
      ensures View() == AfterGrant(cfg, old(View()), model)
      ensures granted == Raised(old(granted), GrantOf(cfg, old(View()), model))
    {
      var entries, waiting := Project(queue, model);
      ProjectedEntries(queue, nextSequence, model, entries, waiting);
      if entries == [] {
        DropPolicy(model);
      } else {
        GrantAmong(model, entries, waiting);
      }
    }

    /** Takes one slot of the model back, if it has one. */
    method TakeBack(model: string)
      requires Valid()
      modifies this`inflight
      ensures Valid() && View() == Released(old(View()), model)
    {
      if model in inflight && inflight[model] > 0 {
        if inflight[model] == 1 {
          inflight := inflight - {model};
        } else {
          inflight := inflight[model := inflight[model] - 1];
        }
      }
    }

    /** A release: the slot taken back goes to a waiter of the model, if there is one. */
    method ReleaseSlot(model: string)
      requires Valid()
      modifies this`inflight, this`queue, this`policies, this`granted, policies.Values
      ensures Valid()
      ensures fresh(policies.Values - old(policies.Values))
      ensures View() == Next(cfg, old(View()), Release(model))
      ensures granted == Raised(old(granted), Grant(cfg, old(View()), Release(model)))
    {
      TakeBack(model);
      GrantNext(model);
    }
  }

  // ----- Many calls -----

  /** A critical section some thread enters. */
  datatype Section =
    | Arrival(model: string, tag: Option<string>, group: Option<string>)
    | Waking(ticket: Ticket)
    | Departure(model: string)

  lemma RunFirst(cfg: Config, s: State, e: Event, rest: seq<Event>, all: seq<Event>)
    requires all == [e] + rest
    ensures Run(cfg, s, all) == Run(cfg, Next(cfg, s, e), rest)
  {
    assert all[1..] == rest;
  }

  lemma {:induction false} RunJoin(cfg: Config, s: State, a: seq<Event>, b: seq<Event>, all: seq<Event>)
    requires all == a + b
    ensures Run(cfg, s, all) == Run(cfg, Run(cfg, s, a), b)
    decreases |a|
  {
    if a == [] {
      assert all == b;
    } else {
      var rest := a[1..];
      assert a == [a[0]] + rest && all == [a[0]] + (rest + b);
      RunFirst(cfg, s, a[0], rest, a);
      RunFirst(cfg, s, a[0], rest + b, all);
      RunJoin(cfg, Next(cfg, s, a[0]), rest, b, rest + b);
    }
  }

  lemma RunOne(cfg: Config, s: State, e: Event)
    ensures Run(cfg, s, [e]) == Next(cfg, s, e)
  {
    assert [e][1..] == [];
  }

  /** One critical section is one event of the machine, or, when a granted waiter wakes, none. */
  ghost function EventsOf(granted: set<Ticket>, call: Section): seq<Event> {
    match call
    case Arrival(m, tag, group) => [Arrive(m, tag, group)]
    case Waking(t) => if t in granted then [] else [Expire(t)]
    case Departure(m) => [Release(m)]
  }

  /** The waiters whose flag is up after it. */
  ghost function GrantedAfter(cfg: Config, s: State, granted: set<Ticket>, call: Section): set<Ticket> {
    match call
    case Arrival(_, _, _) => granted
    case Waking(t) => granted - {t}
    case Departure(m) => Raised(granted, Grant(cfg, s, Release(m)))
  }

  ghost function AllEvents(cfg: Config, s: State, granted: set<Ticket>, calls: seq<Section>): seq<Event>
    decreases |calls|
  {
    if calls == [] then []
    else
      var es := EventsOf(granted, calls[0]);
      es + AllEvents(cfg, Run(cfg, s, es), GrantedAfter(cfg, s, granted, calls[0]), calls[1..])
  }

  method Enter(c: AdmissionController, call: Section) returns (ghost es: seq<Event>)
    requires c.Valid()
    modifies c, c.policies.Values
    ensures c.Valid() && fresh(c.policies.Values - old(c.policies.Values))
    ensures es == EventsOf(old(c.granted), call) && c.View() == Run(c.cfg, old(c.View()), es)
    ensures c.granted == GrantedAfter(c.cfg, old(c.View()), old(c.granted), call)
  {
    ghost var s := c.View();
    es := EventsOf(c.granted, call);
    match call
    case Arrival(m, tag, group) =>
      var _ := c.Admit(m, tag, group);
    case Waking(t) =>
      var _ := c.Wake(t);
    case Departure(m) =>
      c.ReleaseSlot(m);
    if es != [] {
      RunOne(c.cfg, s, es[0]);
    }
  }

  lemma Regroup(a: seq<Event>, b: seq<Event>, c: seq<Event>)
    ensures a + (b + c) == (a + b) + c
  {
  }

  /**
   Whatever threads call, in whatever order, the object goes through the run of their
   events and keeps the invariant.
   */
  method EnterAll(c: AdmissionController, calls: seq<Section>) returns (ghost es: seq<Event>)
    requires c.Valid() && Inv(c.cfg, c.View())
    modifies c, c.policies.Values
    ensures c.Valid() && fresh(c.policies.Values - old(c.policies.Values))
    ensures es == AllEvents(c.cfg, old(c.View()), old(c.granted), calls)
    ensures c.View() == Run(c.cfg, old(c.View()), es)
    ensures Inv(c.cfg, c.View())
  {
    es := [];
    for i := 0 to |calls|
      invariant c.Valid() && fresh(c.policies.Values - old(c.policies.Values))
      invariant c.View() == Run(c.cfg, old(c.View()), es)
      invariant es + AllEvents(c.cfg, c.View(), c.granted, calls[i..]) ==
                AllEvents(c.cfg, old(c.View()), old(c.granted), calls)
    {
      assert calls[i..][0] == calls[i] && calls[i..][1..] == calls[i + 1..];
      ghost var more := Enter(c, calls[i]);
      RunJoin(c.cfg, old(c.View()), es, more, es + more);
      Regroup(es, more, AllEvents(c.cfg, c.View(), c.granted, calls[i + 1..]));
      es := es + more;
    }
    assert calls[|calls|..] == [];
    InvRun(c.cfg, old(c.View()), es);
  }
}
