/**
 Two machines the controller cannot be told from: one that never drops a policy, and, with
 contiguous dequeue off, a plain queue ordered by (priority, arrival).
 */
module AdmissionRefinement {
  import opened Wrappers
  import opened AffinitySpec
  import opened AdmissionSpec
  import opened AdmissionRuns

  // ----- Dropping a policy is unobservable -----

  ghost function KeepAfterGrant(cfg: Config, s: State, model: string): State {
    match GrantOf(cfg, s, model)
    case None => s
    case Some(ticket) =>
      WithSlot(s, ticket).(policies :=
        s.policies[model := NextBurst(cfg.contiguous, BurstOf(s, model), Waiting(s.queue, model))])
  }

  /** The controller without its two erase calls. */
  ghost function KeepNext(cfg: Config, s: State, ev: Event): State {
    if ev.Release? then KeepAfterGrant(cfg, Released(s, ev.model), ev.model) else Next(cfg, s, ev)
  }

  ghost function KeepRun(cfg: Config, s: State, es: seq<Event>): State
    decreases |es|
  {
    if es == [] then s else KeepRun(cfg, KeepNext(cfg, s, es[0]), es[1..])
  }

  ghost function KeepGrants(cfg: Config, s: State, es: seq<Event>): seq<Ticket>
    decreases |es|
  {
    if es == [] then []
    else
      (match Grant(cfg, s, es[0]) case Some(t) => [t] case None => [])
      + KeepGrants(cfg, KeepNext(cfg, s, es[0]), es[1..])
  }

  ghost predicate BurstsBelow(s: State) {
    forall m :: BurstOf(s, m).Some? ==> BurstOf(s, m).value.queuedThrough < s.next
  }

  /** The two controllers differ only in bursts that no longer have a queued member. */
  ghost predicate Alike(s: State, k: State) {
    && s.(policies := map[]) == k.(policies := map[])
    && (forall m :: Interchangeable(Waiting(s.queue, m), BurstOf(s, m), BurstOf(k, m)))
    && BurstsBelow(s) && BurstsBelow(k)
    && (forall t :: t in s.queue ==> t.entry.arrival < s.next)
  }

  lemma AlikeAfterQueueChange(s: State, k: State, s': State, k': State, m: string)
    requires Alike(s, k) && QueueGrowsBehind(s, s') && s'.queue == k'.queue
    requires BurstOf(s', m) == BurstOf(s, m) && BurstOf(k', m) == BurstOf(k, m)
    ensures Interchangeable(Waiting(s'.queue, m), BurstOf(s', m), BurstOf(k', m))
  {
    var S, S' := Waiting(s.queue, m), Waiting(s'.queue, m);
    assert Interchangeable(S, BurstOf(s, m), BurstOf(k, m));
    forall x | x in S' && x.arrival < s.next
      ensures x in S
    {
      assert Ticket(m, x) in s'.queue;
      assert Ticket(m, x) in s.queue;
    }
    assert Members(S', BurstOf(s, m)) <= Members(S, BurstOf(s, m));
    assert Members(S', BurstOf(k, m)) <= Members(S, BurstOf(k, m));
  }

  /** What a release does to the bursts, in either machine. */
  lemma ReleaseBursts(cfg: Config, s: State, m: string)
    ensures var S := Waiting(s.queue, m);
            var b := if S == {} then None else NextBurst(cfg.contiguous, BurstOf(s, m), S);
            forall n :: var now := BurstOf(Next(cfg, s, Release(m)), n);
              now == BurstOf(s, n) || now == None || (n == m && now == b)
  {
  }

  lemma KeepReleaseBursts(cfg: Config, s: State, m: string)
    ensures var S := Waiting(s.queue, m);
            var b := if S == {} then None else NextBurst(cfg.contiguous, BurstOf(s, m), S);
            forall n :: var now := BurstOf(KeepNext(cfg, s, Release(m)), n);
              now == BurstOf(s, n) || now == None || (n == m && now == b)
  {
  }

  /** A release leaves only bursts of ordinals already handed out, in either machine. */
  lemma BelowRelease(cfg: Config, s: State, m: string)
    requires BurstsBelow(s) && forall t :: t in s.queue ==> t.entry.arrival < s.next
    ensures BurstsBelow(Next(cfg, s, Release(m))) && BurstsBelow(KeepNext(cfg, s, Release(m)))
  {
    var S := Waiting(s.queue, m);
    var b := if S == {} then None else NextBurst(cfg.contiguous, BurstOf(s, m), S);
    if S != {} {
      BurstBelow(cfg.contiguous, BurstOf(s, m), S, s.next);
    }
    ReleaseBursts(cfg, s, m);
    KeepReleaseBursts(cfg, s, m);
    BelowAfter(s, Next(cfg, s, Release(m)), m, b);
    BelowAfter(s, KeepNext(cfg, s, Release(m)), m, b);
  }

  lemma BelowAfter(s: State, s': State, m: string, b: Option<Burst>)
    requires BurstsBelow(s) && s.next <= s'.next && (b.Some? ==> b.value.queuedThrough < s.next)
    requires forall n :: BurstOf(s', n) == BurstOf(s, n) || BurstOf(s', n) == None || (n == m && BurstOf(s', n) == b)
    ensures BurstsBelow(s')
  {
    forall n | BurstOf(s', n).Some?
      ensures BurstOf(s', n).value.queuedThrough < s'.next
    {
      assert BurstOf(s, n).Some? ==> BurstOf(s, n).value.queuedThrough < s.next;
    }
  }

  lemma AlikeGrant(cfg: Config, s: State, k: State, m: string)
    requires Alike(s, k)
    ensures Grant(cfg, s, Release(m)) == Grant(cfg, k, Release(m))
  {
    var S := Waiting(s.queue, m);
    assert Interchangeable(S, BurstOf(s, m), BurstOf(k, m));
    if S != {} {
      InterchangeablePick(cfg.contiguous, BurstOf(s, m), BurstOf(k, m), S);
    }
  }

  /** Slots and queue after a release depend on the ticket granted and on nothing else. */
  ghost function SlotsAfter(s: State, m: string, grant: Option<Ticket>): State {
    match grant
    case None => Released(s, m).(policies := map[])
    case Some(t) => WithSlot(Released(s, m), t).(policies := map[])
  }

  lemma ReleaseShape(cfg: Config, s: State, m: string)
    ensures Next(cfg, s, Release(m)).(policies := map[]) == SlotsAfter(s, m, Grant(cfg, s, Release(m)))
    ensures KeepNext(cfg, s, Release(m)).(policies := map[]) == SlotsAfter(s, m, Grant(cfg, s, Release(m)))
  {
  }

  lemma AlikeRelease(cfg: Config, s: State, k: State, m: string)
    requires Alike(s, k)
    ensures Alike(Next(cfg, s, Release(m)), KeepNext(cfg, k, Release(m)))
    ensures Grant(cfg, s, Release(m)) == Grant(cfg, k, Release(m))
  {
    var s' := Next(cfg, s, Release(m));
    var k' := KeepNext(cfg, k, Release(m));
    AlikeGrant(cfg, s, k, m);
    ReleaseShape(cfg, s, m);
    ReleaseShape(cfg, k, m);
    BelowRelease(cfg, s, m);
    BelowRelease(cfg, k, m);
    ReleaseElsewhere(cfg, s, m);
    ReleaseElsewhere(cfg, k, m);
    assert s'.(policies := map[]) == k'.(policies := map[]);
    forall n
      ensures Interchangeable(Waiting(s'.queue, n), BurstOf(s', n), BurstOf(k', n))
    {
      if n == m {
        AlikeReleaseBurst(cfg, s, k, m);
      } else {
        AlikeAfterQueueChange(s, k, s', k', n);
      }
    }
  }

  /** A release removes at most a waiter and touches no other model's burst. */
  lemma ReleaseElsewhere(cfg: Config, s: State, m: string)
    ensures Next(cfg, s, Release(m)).queue <= s.queue && Next(cfg, s, Release(m)).next == s.next
    ensures forall n :: n != m ==> BurstOf(Next(cfg, s, Release(m)), n) == BurstOf(s, n)
    ensures forall n :: n != m ==> BurstOf(KeepNext(cfg, s, Release(m)), n) == BurstOf(s, n)
  {
  }

  lemma AlikeReleaseBurst(cfg: Config, s: State, k: State, m: string)
    requires Alike(s, k)
    ensures var s' := Next(cfg, s, Release(m));
            Interchangeable(Waiting(s'.queue, m), BurstOf(s', m), BurstOf(KeepNext(cfg, k, Release(m)), m))
  {
    var S := Waiting(s.queue, m);
    AlikeGrant(cfg, s, k, m);
    assert Interchangeable(S, BurstOf(s, m), BurstOf(k, m));
    match Grant(cfg, s, Release(m)) {
      case None =>
        var s' := Next(cfg, s, Release(m));
        if BurstOf(s', m) != BurstOf(s, m) {
          assert Waiting(s'.queue, m) == {};
        }
      case Some(t) => AlikeGrantedBurst(cfg, s, k, m, t);
    }
  }

  lemma AlikeGrantedBurst(cfg: Config, s: State, k: State, m: string, t: Ticket)
    requires Alike(s, k) && Grant(cfg, s, Release(m)) == Some(t) == Grant(cfg, k, Release(m))
    ensures var s' := Next(cfg, s, Release(m));
            Interchangeable(Waiting(s'.queue, m), BurstOf(s', m), BurstOf(KeepNext(cfg, k, Release(m)), m))
  {
    var S := Waiting(s.queue, m);
    assert Interchangeable(S, BurstOf(s, m), BurstOf(k, m));
    WaitingWithout(s.queue, m, t.entry);
    InterchangeablePick(cfg.contiguous, BurstOf(s, m), BurstOf(k, m), S);
    if |S| == 1 {
      LastWaiter(S, t.entry);
    } else if !cfg.contiguous {
      AlikeShrunk(S, t.entry, BurstOf(s, m), BurstOf(k, m));
    }
  }

  lemma AlikeShrunk(S: set<Entry>, x: Entry, b: Option<Burst>, b': Option<Burst>)
    requires Interchangeable(S, b, b')
    ensures Interchangeable(S - {x}, b, b')
  {
    assert Members(S - {x}, b) <= Members(S, b) && Members(S - {x}, b') <= Members(S, b');
  }

  lemma ReplyUnread(cfg: Config, s: State, k: State, m: string, tag: Option<string>, group: Option<string>)
    requires s.inflight == k.inflight && s.queue == k.queue && s.next == k.next
    ensures ReplyTo(cfg, s, m, tag, group) == ReplyTo(cfg, k, m, tag, group)
  {
    assert Count(s.inflight, m) == Count(k.inflight, m);
    assert Waiting(s.queue, m) == Waiting(k.queue, m);
  }

  lemma AfterReplyUnread(s: State, k: State, m: string, reply: Reply)
    requires s.inflight == k.inflight && s.queue == k.queue && s.next == k.next
    ensures AfterReply(s, m, reply).(policies := map[]) == AfterReply(k, m, reply).(policies := map[])
    ensures AfterReply(s, m, reply).policies == s.policies
  {
  }

  /** No arrival and no timeout looks at the policies. */
  lemma PoliciesUnread(cfg: Config, s: State, k: State, ev: Event)
    requires !ev.Release? && s.(policies := map[]) == k.(policies := map[])
    ensures Next(cfg, s, ev).(policies := map[]) == Next(cfg, k, ev).(policies := map[])
    ensures Next(cfg, s, ev).policies == s.policies && Next(cfg, k, ev).policies == k.policies
  {
    if ev.Arrive? {
      var reply := ReplyTo(cfg, s, ev.model, ev.tag, ev.group);
      ReplyUnread(cfg, s, k, ev.model, ev.tag, ev.group);
      AfterReplyUnread(s, k, ev.model, reply);
      AfterReplyUnread(k, s, ev.model, reply);
    }
  }

  lemma AlikeKept(s: State, k: State, s': State, k': State)
    requires Alike(s, k) && QueueGrowsBehind(s, s') && s.next <= s'.next
    requires s'.(policies := map[]) == k'.(policies := map[])
    requires s'.policies == s.policies && k'.policies == k.policies
    requires forall t :: t in s'.queue ==> t.entry.arrival < s'.next
    ensures Alike(s', k')
  {
    assert forall m :: BurstOf(s', m) == BurstOf(s, m) && BurstOf(k', m) == BurstOf(k, m);
    forall m
      ensures Interchangeable(Waiting(s'.queue, m), BurstOf(s', m), BurstOf(k', m))
    {
      AlikeAfterQueueChange(s, k, s', k', m);
    }
    BelowAfter(s, s', "", None);
    BelowAfter(k, k', "", None);
  }

  lemma AlikeStep(cfg: Config, s: State, k: State, ev: Event)
    requires Alike(s, k)
    ensures Alike(Next(cfg, s, ev), KeepNext(cfg, k, ev))
    ensures Grant(cfg, s, ev) == Grant(cfg, k, ev)
  {
    if ev.Release? {
      AlikeRelease(cfg, s, k, ev.model);
    } else {
      PoliciesUnread(cfg, s, k, ev);
      QueueStep(cfg, s, ev);
      AlikeKept(s, k, Next(cfg, s, ev), Next(cfg, k, ev));
    }
  }

  lemma {:induction false} AlikeRun(cfg: Config, s: State, k: State, es: seq<Event>)
    requires Alike(s, k)
    ensures Grants(cfg, s, es) == KeepGrants(cfg, k, es)
    ensures Alike(Run(cfg, s, es), KeepRun(cfg, k, es))
    decreases |es|
  {
    if es != [] {
      AlikeStep(cfg, s, k, es[0]);
      AlikeRun(cfg, Next(cfg, s, es[0]), KeepNext(cfg, k, es[0]), es[1..]);
    }
  }

  /** Dropping a policy is unobservable: every run grants the same tickets and leaves the same slots and queue. */
  lemma DroppingIsUnobservable(cfg: Config, es: seq<Event>)
    ensures Grants(cfg, EMPTY, es) == KeepGrants(cfg, EMPTY, es)
    ensures Run(cfg, EMPTY, es).(policies := map[]) == KeepRun(cfg, EMPTY, es).(policies := map[])
  {
    AlikeRun(cfg, EMPTY, EMPTY, es);
  }

  // ----- With contiguous dequeue off -----

  ghost predicate Before(x: Entry, y: Entry) {
    x.priority < y.priority || (x.priority == y.priority && x.arrival <= y.arrival)
  }

  ghost predicate IsHead(S: set<Entry>, e: Entry) {
    e in S && forall x :: x in S ==> Before(e, x)
  }

  lemma HeadExists(S: set<Entry>)
    requires S != {}
    ensures IsHead(S, Pick(false, None, S))
  {
    var e := Pick(false, None, S);
    assert forall x :: x in S && x.priority == e.priority ==> x in Class(S, Lowest(S));
  }

  /** The head of a queue ordered by (priority, arrival). */
  ghost function Head(S: set<Entry>): (e: Entry)
    requires S != {}
    ensures IsHead(S, e)
  {
    HeadExists(S);
    var e :| IsHead(S, e);
    e
  }

  ghost function PlainGrantOf(cfg: Config, s: State, model: string): Option<Ticket> {
    var S := Waiting(s.queue, model);
    if cfg.cap <= 0 || Full(cfg, s, model) || S == {} then None else Some(Ticket(model, Head(S)))
  }

  ghost function PlainGrant(cfg: Config, s: State, ev: Event): Option<Ticket> {
    if ev.Release? then PlainGrantOf(cfg, Released(s, ev.model), ev.model) else None
  }

  /** A controller with no notion of a group. */
  ghost function PlainNext(cfg: Config, s: State, ev: Event): State {
    if !ev.Release? then Next(cfg, s, ev)
    else match PlainGrant(cfg, s, ev)
      case None => Released(s, ev.model)
      case Some(t) => WithSlot(Released(s, ev.model), t)
  }

  ghost function PlainRun(cfg: Config, s: State, es: seq<Event>): State
    decreases |es|
  {
    if es == [] then s else PlainRun(cfg, PlainNext(cfg, s, es[0]), es[1..])
  }

  ghost function PlainGrants(cfg: Config, s: State, es: seq<Event>): seq<Ticket>
    decreases |es|
  {
    if es == [] then []
    else
      (match PlainGrant(cfg, s, es[0]) case Some(t) => [t] case None => [])
      + PlainGrants(cfg, PlainNext(cfg, s, es[0]), es[1..])
  }

  lemma WaitersDistinct(cfg: Config, s: State, m: string)
    requires Inv(cfg, s)
    ensures Distinct(Waiting(s.queue, m))
  {
    var S := Waiting(s.queue, m);
    forall x, y | x in S && y in S && x.arrival == y.arrival
      ensures x == y
    {
      assert Ticket(m, x) in s.queue && Ticket(m, y) in s.queue;
    }
  }

  lemma PlainPick(S: set<Entry>, b: Option<Burst>)
    requires S != {} && Distinct(S)
    ensures Pick(false, b, S) == Head(S)
  {
    SelectionLaw(false, b, S);
    assert Before(Head(S), Pick(false, b, S)) && Before(Pick(false, b, S), Head(S));
  }

  lemma PlainGrantSame(cfg: Config, s: State, m: string)
    requires Distinct(Waiting(s.queue, m)) && !cfg.contiguous
    ensures GrantOf(cfg, s, m) == PlainGrantOf(cfg, s.(policies := map[]), m)
  {
    if Waiting(s.queue, m) != {} {
      PlainPick(Waiting(s.queue, m), BurstOf(s, m));
    }
  }

  lemma PlainShape(cfg: Config, s: State, m: string)
    ensures var p := s.(policies := map[]);
            PlainNext(cfg, p, Release(m)) == SlotsAfter(s, m, PlainGrant(cfg, p, Release(m)))
  {
  }

  lemma PlainStep(cfg: Config, s: State, ev: Event)
    requires Inv(cfg, s) && !cfg.contiguous
    ensures Grant(cfg, s, ev) == PlainGrant(cfg, s.(policies := map[]), ev)
    ensures Next(cfg, s, ev).(policies := map[]) == PlainNext(cfg, s.(policies := map[]), ev)
  {
    if ev.Release? {
      PlainRelease(cfg, s, ev.model);
    } else {
      PoliciesUnread(cfg, s, s.(policies := map[]), ev);
    }
  }

  lemma PlainRelease(cfg: Config, s: State, m: string)
    requires Inv(cfg, s) && !cfg.contiguous
    ensures Grant(cfg, s, Release(m)) == PlainGrant(cfg, s.(policies := map[]), Release(m))
    ensures Next(cfg, s, Release(m)).(policies := map[]) == PlainNext(cfg, s.(policies := map[]), Release(m))
  {
    WaitersDistinct(cfg, s, m);
    PlainGrantSame(cfg, Released(s, m), m);
    assert Grant(cfg, s, Release(m)) == PlainGrant(cfg, s.(policies := map[]), Release(m));
    ReleaseShape(cfg, s, m);
    PlainShape(cfg, s, m);
  }

  /** With the toggle off, every run is a run of the plain (priority, arrival) queue. */
  lemma {:induction false} PlainQueueRefined(cfg: Config, s: State, es: seq<Event>)
    requires Inv(cfg, s) && !cfg.contiguous
    ensures Grants(cfg, s, es) == PlainGrants(cfg, s.(policies := map[]), es)
    ensures Run(cfg, s, es).(policies := map[]) == PlainRun(cfg, s.(policies := map[]), es)
    decreases |es|
  {
    if es != [] {
      PlainStep(cfg, s, es[0]);
      InvStep(cfg, s, es[0]);
      PlainQueueRefined(cfg, Next(cfg, s, es[0]), es[1..]);
    }
  }

  /** Every grant of every run obeys the selection law on the waiters of its model. */
  lemma GrantObeysSelectionLaw(cfg: Config, s: State, ev: Event)
    requires Inv(cfg, s) && Grant(cfg, s, ev).Some?
    ensures var t := Grant(cfg, s, ev).value;
            && t in s.queue && t.model == ev.model
            && forall u :: u in s.queue && u.model == t.model ==>
                 && t.entry.priority <= u.entry.priority
                 && (u.entry.priority == t.entry.priority && (u.entry.group == t.entry.group || t.entry.group == None)
                     ==> t.entry.arrival <= u.entry.arrival)
  {
    WaitersDistinct(cfg, s, ev.model);
    GrantEffect(cfg, s, ev.model);
    SelectionLaw(cfg.contiguous, BurstOf(s, ev.model), Waiting(s.queue, ev.model));
    assert forall u :: u in s.queue && u.model == ev.model ==> u.entry in Waiting(s.queue, ev.model);
  }
}
