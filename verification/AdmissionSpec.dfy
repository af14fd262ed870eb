/**
 The admission controller as a state machine: each critical section under its mutex is one step.
 A queued waiter is a ticket; the queue is the set of tickets not yet granted.
 */
module AdmissionSpec {
  import opened Wrappers
  import opened AffinitySpec

  const THREAD_MARGIN := 8

  datatype Priorities = Priorities(interactive: int, review: int, batch: int)

  datatype Config = Config(cap: int, maxQueued: int, contiguous: bool, priorities: Priorities)

  datatype Outcome = Admitted | TimedOut | Overflowed

  datatype Ticket = Ticket(model: string, entry: Entry)

  /** What the first critical section of admit() does with its caller. */
  datatype Reply = Settled(outcome: Outcome) | Parked(ticket: Ticket)

  datatype State = State(inflight: map<string, nat>, queue: set<Ticket>, policies: map<string, Option<Burst>>,
                         next: nat)

  const EMPTY := State(map[], {}, map[], 0)

  datatype Event =
    | Arrive(model: string, tag: Option<string>, group: Option<string>)
    | Expire(ticket: Ticket)
    | Release(model: string)

  function MaxDistinct(cap: int): nat {
    if cap <= 0 then 0 else 1 + (THREAD_MARGIN - 1) / cap
  }

  function QueueLimit(cfg: Config): nat {
    if cfg.maxQueued < 0 then 0 else cfg.maxQueued
  }

  /** An unrecognised tag is an interactive request, never an error. */
  function PriorityValue(priorities: Priorities, tag: Option<string>): int {
    if tag == Some("review") then priorities.review
    else if tag == Some("batch") then priorities.batch
    else priorities.interactive
  }

  function Count(inflight: map<string, nat>, model: string): nat {
    if model in inflight then inflight[model] else 0
  }

  ghost function Waiting(queue: set<Ticket>, model: string): (S: set<Entry>)
    ensures forall t :: t in queue && t.model == model ==> t.entry in S
    ensures forall e :: e in S ==> Ticket(model, e) in queue
  {
    set t | t in queue && t.model == model :: t.entry
  }

  ghost function BurstOf(s: State, model: string): Option<Burst> {
    if model in s.policies then s.policies[model] else None
  }

  /** A model that can take no further request. */
  ghost predicate Full(cfg: Config, s: State, model: string) {
    Count(s.inflight, model) >= cfg.cap
  }

  ghost predicate HasFreeSlot(cfg: Config, s: State, model: string) {
    cfg.cap > 0 && !Full(cfg, s, model) && Waiting(s.queue, model) == {}
  }

  ghost function ReplyTo(cfg: Config, s: State, model: string, tag: Option<string>, group: Option<string>): Reply {
    if HasFreeSlot(cfg, s, model) then
      if Count(s.inflight, model) == 0 && |s.inflight| >= MaxDistinct(cfg.cap) then Settled(Overflowed)
      else Settled(Admitted)
    else if |s.queue| >= QueueLimit(cfg) then Settled(Overflowed)
    else Parked(Ticket(model, Entry(PriorityValue(cfg.priorities, tag), group, s.next)))
  }

  ghost function AfterReply(s: State, model: string, reply: Reply): State {
    match reply
    case Settled(Admitted) => s.(inflight := s.inflight[model := Count(s.inflight, model) + 1])
    case Settled(_) => s
    case Parked(ticket) => s.(queue := s.queue + {ticket}, next := s.next + 1)
  }

  function Uncount(inflight: map<string, nat>, model: string): map<string, nat> {
    if Count(inflight, model) == 0 then inflight
    else if inflight[model] == 1 then inflight - {model}
    else inflight[model := inflight[model] - 1]
  }

  /** The waiter that grantNext hands a slot of the model to. */
  ghost function GrantOf(cfg: Config, s: State, model: string): Option<Ticket> {
    var S := Waiting(s.queue, model);
    if cfg.cap <= 0 || Full(cfg, s, model) || S == {} then None
    else Some(Ticket(model, Pick(cfg.contiguous, BurstOf(s, model), S)))
  }

  ghost function WithSlot(s: State, ticket: Ticket): State {
    s.(queue := s.queue - {ticket}, inflight := s.inflight[ticket.model := Count(s.inflight, ticket.model) + 1])
  }

  /** The policy table after a grant: a model whose last waiter leaves keeps no burst. */
  ghost function GrantPolicies(cfg: Config, s: State, m: string): map<string, Option<Burst>>
    requires Waiting(s.queue, m) != {}
  {
    var S := Waiting(s.queue, m);
    if |S| == 1 then s.policies - {m}
    else s.policies[m := NextBurst(cfg.contiguous, BurstOf(s, m), S)]
  }

  ghost function AfterGrant(cfg: Config, s: State, model: string): State {
    match GrantOf(cfg, s, model)
    case None =>
      if cfg.cap <= 0 || Full(cfg, s, model) then s else s.(policies := s.policies - {model})
    case Some(ticket) =>
      WithSlot(s, ticket).(policies := GrantPolicies(cfg, s, model))
  }

  ghost function Released(s: State, model: string): State {
    s.(inflight := Uncount(s.inflight, model))
  }

  /** The waiter granted by an event, if it grants one. */
  ghost function Grant(cfg: Config, s: State, ev: Event): Option<Ticket> {
    if ev.Release? then GrantOf(cfg, Released(s, ev.model), ev.model) else None
  }

  ghost function Next(cfg: Config, s: State, ev: Event): State {
    match ev
    case Arrive(model, tag, group) => AfterReply(s, model, ReplyTo(cfg, s, model, tag, group))
    case Expire(ticket) => s.(queue := s.queue - {ticket})
    case Release(model) => AfterGrant(cfg, Released(s, model), model)
  }

  ghost predicate SlotsOk(cfg: Config, inflight: map<string, nat>) {
    && (forall m :: m in inflight ==> 1 <= inflight[m] <= cfg.cap)
    && |inflight| <= MaxDistinct(cfg.cap)
  }

  ghost predicate QueueOk(cfg: Config, s: State) {
    && |s.queue| <= QueueLimit(cfg)
    && (forall t :: t in s.queue ==> Full(cfg, s, t.model) && t.entry.arrival < s.next)
    && (forall t, u :: t in s.queue && u in s.queue && t.entry.arrival == u.entry.arrival ==> t == u)
  }

  ghost predicate PoliciesOk(cfg: Config, s: State) {
    && (forall m :: m in s.policies ==> Full(cfg, s, m))
    && (forall m :: m in s.policies && s.policies[m].Some? ==> s.policies[m].value.queuedThrough < s.next)
  }

  /** What holds of every reachable state. */
  ghost predicate Inv(cfg: Config, s: State) {
    SlotsOk(cfg, s.inflight) && QueueOk(cfg, s) && PoliciesOk(cfg, s)
  }

  lemma InvHoldsInitially(cfg: Config)
    ensures Inv(cfg, EMPTY)
  {
  }

  lemma InvAdmit(cfg: Config, s: State, m: string)
    requires Inv(cfg, s) && HasFreeSlot(cfg, s, m)
    requires Count(s.inflight, m) > 0 || |s.inflight| < MaxDistinct(cfg.cap)
    ensures Inv(cfg, AfterReply(s, m, Settled(Admitted)))
  {
    var s' := AfterReply(s, m, Settled(Admitted));
    assert s'.inflight.Keys == s.inflight.Keys + {m};
    assert forall n :: Full(cfg, s, n) ==> Full(cfg, s', n);
  }

  /** Nobody is parked beside a free slot. */
  lemma ParkedMeansFull(cfg: Config, s: State, m: string)
    requires Inv(cfg, s) && !HasFreeSlot(cfg, s, m)
    ensures Full(cfg, s, m)
  {
    if Waiting(s.queue, m) != {} {
      var e :| e in Waiting(s.queue, m);
      assert Ticket(m, e) in s.queue;
    }
  }

  /** The configured value a tag names: "review", "batch", and for anything else the interactive one. */
  ghost predicate TagGives(priorities: Priorities, tag: Option<string>, value: int) {
    && (tag == Some("review") ==> value == priorities.review)
    && (tag == Some("batch") ==> value == priorities.batch)
    && (tag != Some("review") && tag != Some("batch") ==> value == priorities.interactive)
  }

  /**
   When an arrival is answered how, by what is in flight and queued. It is admitted if its model is below the cap
   and, unless some of it is in flight, another model may be; it waits if its model is at the cap and there is room;
   it is refused otherwise. A waiter keeps its group and comes after all before it.
   */
  ghost predicate AnswerIs(cfg: Config, s: State, model: string, tag: Option<string>, group: Option<string>,
                           reply: Reply)
  {
    && (reply == Settled(Admitted) <==>
          && Count(s.inflight, model) < cfg.cap
          && (Count(s.inflight, model) > 0 || |s.inflight| < MaxDistinct(cfg.cap)))
    && (reply.Parked? <==> Count(s.inflight, model) >= cfg.cap && |s.queue| < cfg.maxQueued)
    && (reply.Settled? && reply.outcome != Admitted ==> reply.outcome == Overflowed)
    && (reply.Parked? ==>
          && reply.ticket.model == model && reply.ticket.entry.group == group
          && TagGives(cfg.priorities, tag, reply.ticket.entry.priority)
          && forall t :: t in s.queue ==> t.entry.arrival < reply.ticket.entry.arrival)
  }

  lemma AnswersAre(cfg: Config, s: State, model: string, tag: Option<string>, group: Option<string>)
    requires Inv(cfg, s)
    ensures AnswerIs(cfg, s, model, tag, group, ReplyTo(cfg, s, model, tag, group))
  {
    if !HasFreeSlot(cfg, s, model) {
      ParkedMeansFull(cfg, s, model);
    }
  }

  lemma InvPark(cfg: Config, s: State, ticket: Ticket)
    requires Inv(cfg, s) && !HasFreeSlot(cfg, s, ticket.model)
    requires |s.queue| < QueueLimit(cfg) && ticket.entry.arrival == s.next
    ensures Inv(cfg, AfterReply(s, ticket.model, Parked(ticket)))
  {
    ParkedMeansFull(cfg, s, ticket.model);
    QueueGains(cfg, s, ticket);
    assert PoliciesOk(cfg, AfterReply(s, ticket.model, Parked(ticket)));
  }

  lemma QueueGains(cfg: Config, s: State, ticket: Ticket)
    requires QueueOk(cfg, s) && Full(cfg, s, ticket.model)
    requires |s.queue| < QueueLimit(cfg) && ticket.entry.arrival == s.next
    ensures QueueOk(cfg, s.(queue := s.queue + {ticket}, next := s.next + 1))
  {
    var s' := s.(queue := s.queue + {ticket}, next := s.next + 1);
    assert forall n :: Full(cfg, s, n) <==> Full(cfg, s', n);
  }

  lemma InvExpire(cfg: Config, s: State, ticket: Ticket)
    requires Inv(cfg, s)
    ensures Inv(cfg, s.(queue := s.queue - {ticket}))
  {
    SubsetSize(s.queue - {ticket}, s.queue);
    assert forall n :: Full(cfg, s, n) <==> Full(cfg, s.(queue := s.queue - {ticket}), n);
  }

  lemma SlotsAfterRelease(cfg: Config, inflight: map<string, nat>, m: string)
    requires SlotsOk(cfg, inflight)
    ensures var after := Uncount(inflight, m);
            && SlotsOk(cfg, after)
            && after.Keys <= inflight.Keys
            && (Count(after, m) < cfg.cap && m in inflight ==> after[m := Count(after, m) + 1] == inflight)
            && Count(after, m) == (if Count(inflight, m) == 0 then 0 else Count(inflight, m) - 1)
            && (forall n :: n != m ==> Count(after, n) == Count(inflight, n))
  {
    var after := Uncount(inflight, m);
    SubsetSize(after.Keys, inflight.Keys);
    assert m in inflight ==> after[m := Count(after, m) + 1] == inflight;
  }

  /** The slot that a release hands on keeps its model at the cap: the in-flight table does not change. */
  lemma GrantKeepsSlots(cfg: Config, s: State, m: string)
    requires Inv(cfg, s) && GrantOf(cfg, Released(s, m), m).Some?
    ensures Full(cfg, s, m)
    ensures var ticket := GrantOf(cfg, Released(s, m), m).value;
            ticket in s.queue && WithSlot(Released(s, m), ticket) == s.(queue := s.queue - {ticket})
  {
    SlotsAfterRelease(cfg, s.inflight, m);
    var ticket := GrantOf(cfg, Released(s, m), m).value;
    assert ticket in s.queue;
  }

  lemma InvPolicies(cfg: Config, s: State, m: string, queue: set<Ticket>)
    requires Inv(cfg, s) && Full(cfg, s, m) && Waiting(s.queue, m) != {}
    requires Inv(cfg, s.(queue := queue))
    ensures Inv(cfg, s.(queue := queue, policies := GrantPolicies(cfg, s, m)))
  {
    var s1 := s.(queue := queue);
    var s2 := s1.(policies := GrantPolicies(cfg, s, m));
    var S := Waiting(s.queue, m);
    BurstBelow(cfg.contiguous, BurstOf(s, m), S, s.next);
    assert forall n :: Full(cfg, s1, n) <==> Full(cfg, s2, n);
    assert forall n :: n in s2.policies ==> n == m || n in s1.policies;
  }

  lemma InvReleaseGranting(cfg: Config, s: State, m: string)
    requires Inv(cfg, s) && GrantOf(cfg, Released(s, m), m).Some?
    ensures Inv(cfg, AfterGrant(cfg, Released(s, m), m))
  {
    var ticket := GrantOf(cfg, Released(s, m), m).value;
    GrantKeepsSlots(cfg, s, m);
    InvExpire(cfg, s, ticket);
    InvPolicies(cfg, s, m, s.queue - {ticket});
  }

  /**
   What giving a slot back comes to: with a waiter of the model, one of them has it and no count changes; without
   one, the count is one lower. Nothing else in flight or queued changes.
   */
  ghost predicate ReleaseIs(s: State, m: string, granted: Option<Ticket>, s': State) {
    && (granted.Some? <==> exists t :: t in s.queue && t.model == m)
    && (granted.Some? ==>
          granted.value in s.queue && granted.value.model == m && s'.inflight == s.inflight
          && s'.queue == s.queue - {granted.value})
    && (granted == None ==>
          Count(s'.inflight, m) == Count(s.inflight, m) - 1 && s'.queue == s.queue
          && forall n :: n != m ==> Count(s'.inflight, n) == Count(s.inflight, n))
  }

  lemma ReleasesAre(cfg: Config, s: State, m: string)
    requires Inv(cfg, s) && Count(s.inflight, m) > 0
    ensures ReleaseIs(s, m, Grant(cfg, s, Release(m)), Next(cfg, s, Release(m)))
  {
    SlotsAfterRelease(cfg, s.inflight, m);
    var grant := Grant(cfg, s, Release(m));
    if grant.Some? {
      GrantKeepsSlots(cfg, s, m);
    } else {
      assert forall t :: t in s.queue && t.model == m ==> t.entry in Waiting(Released(s, m).queue, m);
    }
  }

  lemma InvReleaseIdle(cfg: Config, s: State, m: string)
    requires Inv(cfg, s) && GrantOf(cfg, Released(s, m), m) == None
    ensures Inv(cfg, AfterGrant(cfg, Released(s, m), m))
  {
    var r := Released(s, m);
    var s' := AfterGrant(cfg, r, m);
    SlotsAfterRelease(cfg, s.inflight, m);
    assert forall n :: n != m && Full(cfg, s, n) ==> Full(cfg, s', n);
    forall t | t in s.queue && t.model == m
      ensures Full(cfg, r, m)
    {
      assert t.entry in Waiting(r.queue, m);
    }
  }

  /**
   In every state every step keeps: the cap; no idle slot while a request waits; the queue limit;
   the limit on distinct models, which a grant does not test; only full models keep a policy.
   */
  lemma InvStep(cfg: Config, s: State, ev: Event)
    requires Inv(cfg, s)
    ensures Inv(cfg, Next(cfg, s, ev))
  {
    match ev {
      case Arrive(m, tag, group) =>
        var reply := ReplyTo(cfg, s, m, tag, group);
        if reply == Settled(Admitted) {
          InvAdmit(cfg, s, m);
        } else if reply.Parked? {
          InvPark(cfg, s, reply.ticket);
        }
      case Expire(ticket) => InvExpire(cfg, s, ticket);
      case Release(m) =>
        if GrantOf(cfg, Released(s, m), m) == None {
          InvReleaseIdle(cfg, s, m);
        } else {
          InvReleaseGranting(cfg, s, m);
        }
    }
  }

  /** The policy table is no larger than the limit on distinct models. */
  lemma PoliciesBounded(cfg: Config, s: State)
    requires Inv(cfg, s) && cfg.cap >= 1
    ensures |s.policies| <= |s.inflight| <= MaxDistinct(cfg.cap)
  {
    assert s.policies.Keys <= s.inflight.Keys;
    SubsetSize(s.policies.Keys, s.inflight.Keys);
  }
}
