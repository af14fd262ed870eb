/** Whole runs of the admission controller: the invariant, bounded overtaking and burst contiguity. */
module AdmissionRuns {
  import opened Wrappers
  import opened AffinitySpec
  import opened AdmissionSpec

  /** Only a waiter that has not been granted can time out. */
  ghost predicate Enabled(s: State, ev: Event) {
    ev.Expire? ==> ev.ticket in s.queue
  }

  ghost predicate Legal(cfg: Config, s: State, es: seq<Event>)
    decreases |es|
  {
    es == [] || (Enabled(s, es[0]) && Legal(cfg, Next(cfg, s, es[0]), es[1..]))
  }

  ghost function Run(cfg: Config, s: State, es: seq<Event>): State
    decreases |es|
  {
    if es == [] then s else Run(cfg, Next(cfg, s, es[0]), es[1..])
  }

  /** The tickets granted along a run, in order. */
  ghost function Grants(cfg: Config, s: State, es: seq<Event>): seq<Ticket>
    decreases |es|
  {
    if es == [] then []
    else
      (match Grant(cfg, s, es[0]) case Some(t) => [t] case None => []) + Grants(cfg, Next(cfg, s, es[0]), es[1..])
  }

  lemma {:induction false} InvRun(cfg: Config, s: State, es: seq<Event>)
    requires Inv(cfg, s)
    ensures Inv(cfg, Run(cfg, s, es))
    decreases |es|
  {
    if es != [] {
      InvStep(cfg, s, es[0]);
      InvRun(cfg, Next(cfg, s, es[0]), es[1..]);
    }
  }

  // ----- Bounded overtaking -----

  /** The waiters of e's model and class no newer than e, e included. */
  ghost function Ahead(s: State, e: Ticket): set<Ticket> {
    set t | t in s.queue && t.model == e.model && t.entry.priority == e.entry.priority
            && t.entry.arrival <= e.entry.arrival
  }

  /** What is left of the burst that drains e's class on e's model. */
  ghost function BurstLeft(s: State, e: Ticket): set<Entry> {
    set x | x in Members(Waiting(s.queue, e.model), BurstOf(s, e.model)) && x.priority == e.entry.priority
  }

  ghost predicate Overtakes(cfg: Config, s: State, ev: Event, e: Ticket) {
    match Grant(cfg, s, ev)
    case Some(t) => t != e && t.model == e.model && t.entry.priority == e.entry.priority
    case None => false
  }

  /** Every event but a parking arrival only takes tickets from the queue. */
  ghost predicate QueueGrowsBehind(s: State, s': State) {
    forall t :: t in s'.queue ==> t in s.queue || s.next <= t.entry.arrival
  }

  lemma QueueStep(cfg: Config, s: State, ev: Event)
    ensures QueueGrowsBehind(s, Next(cfg, s, ev))
  {
  }

  lemma AheadShrinks(cfg: Config, s: State, s': State, e: Ticket)
    requires Inv(cfg, s) && e in s.queue && QueueGrowsBehind(s, s')
    ensures Ahead(s', e) <= Ahead(s, e)
  {
  }

  lemma MembersShrink(cfg: Config, s: State, s': State, m: string)
    requires Inv(cfg, s) && QueueGrowsBehind(s, s')
    ensures Members(Waiting(s'.queue, m), BurstOf(s, m)) <= Members(Waiting(s.queue, m), BurstOf(s, m))
  {
    forall x | x in Members(Waiting(s'.queue, m), BurstOf(s, m))
      ensures x in Members(Waiting(s.queue, m), BurstOf(s, m))
    {
      assert Ticket(m, x) in s'.queue;
      assert Ticket(m, x) in s.queue;
    }
  }

  lemma PolicyStep(cfg: Config, s: State, ev: Event, m: string)
    requires ev != Release(m)
    ensures BurstOf(Next(cfg, s, ev), m) == BurstOf(s, m)
  {
  }

  lemma GrantWhileWaiting(cfg: Config, s: State, e: Ticket)
    requires Inv(cfg, s) && e in s.queue
    requires GrantOf(cfg, Released(s, e.model), e.model).Some? && GrantOf(cfg, Released(s, e.model), e.model).value != e
    ensures var S := Waiting(s.queue, e.model);
            && e.entry in S
            && BurstOf(Next(cfg, s, Release(e.model)), e.model) == NextBurst(cfg.contiguous, BurstOf(s, e.model), S)
  {
    var S := Waiting(s.queue, e.model);
    var t := GrantOf(cfg, Released(s, e.model), e.model).value;
    assert t.entry in S && e.entry in S && t.entry != e.entry;
    SubsetSize({t.entry, e.entry}, S);
  }

  /**
   A grant to e's class either removes a waiter no newer than e or shortens the running burst;
   nothing else that happens to the controller lengthens either.
   */
  lemma OvertakingStep(cfg: Config, s: State, ev: Event, e: Ticket)
    requires Inv(cfg, s) && e in s.queue && e in Next(cfg, s, ev).queue
    ensures var s' := Next(cfg, s, ev);
            && Ahead(s', e) <= Ahead(s, e)
            && (Overtakes(cfg, s, ev, e) ==> Ahead(s', e) < Ahead(s, e) || BurstLeft(s', e) < BurstLeft(s, e))
            && (!Overtakes(cfg, s, ev, e) ==> BurstLeft(s', e) <= BurstLeft(s, e))
  {
    var s' := Next(cfg, s, ev);
    QueueStep(cfg, s, ev);
    AheadShrinks(cfg, s, s', e);
    MembersShrink(cfg, s, s', e.model);
    if ev != Release(e.model) {
      PolicyStep(cfg, s, ev, e.model);
    } else if Grant(cfg, s, ev).Some? {
      OvertakingGrant(cfg, s, e);
    } else {
      assert e.entry in Waiting(s.queue, e.model);
    }
  }

  lemma OvertakingGrant(cfg: Config, s: State, e: Ticket)
    requires Inv(cfg, s) && e in s.queue && e in Next(cfg, s, Release(e.model)).queue
    requires Grant(cfg, s, Release(e.model)).Some?
    ensures var s' := Next(cfg, s, Release(e.model));
            && (Overtakes(cfg, s, Release(e.model), e) ==>
                Ahead(s', e) < Ahead(s, e) || BurstLeft(s', e) < BurstLeft(s, e))
            && (!Overtakes(cfg, s, Release(e.model), e) ==> BurstLeft(s', e) <= BurstLeft(s, e))
  {
    var s' := Next(cfg, s, Release(e.model));
    var t := Grant(cfg, s, Release(e.model)).value;
    var S := Waiting(s.queue, e.model);
    var b := BurstOf(s, e.model);
    GrantWhileWaiting(cfg, s, e);
    assert t in s.queue && t !in s'.queue;
    assert Waiting(s'.queue, e.model) <= S;
    if Draining(cfg.contiguous, b, S) {
      assert t.entry in Members(S, b);
      assert t.entry.priority == e.entry.priority ==> t.entry in BurstLeft(s, e) && t.entry !in BurstLeft(s', e);
    } else {
      assert t.entry.priority == e.entry.priority ==> e.entry in Class(S, Lowest(S));
      assert t.entry.priority == e.entry.priority ==> t in Ahead(s, e) && t !in Ahead(s', e);
    }
  }

  /** Each waiter ahead weighs one more than a full queue. */
  ghost function Weight(ahead: nat, limit: nat): nat {
    if ahead <= 1 then 0 else limit + 1 + Weight(ahead - 1, limit)
  }

  /** How many grants of e's class can still come before e. */
  ghost function Potential(cfg: Config, s: State, e: Ticket): nat {
    Weight(|Ahead(s, e)|, QueueLimit(cfg)) + |BurstLeft(s, e)|
  }

  lemma BurstLeftBounded(cfg: Config, s: State, e: Ticket)
    requires Inv(cfg, s)
    ensures |BurstLeft(s, e)| <= QueueLimit(cfg)
  {
    var tickets := set x | x in BurstLeft(s, e) :: Ticket(e.model, x);
    assert tickets <= s.queue;
    SubsetSize(tickets, s.queue);
    SameSize(BurstLeft(s, e), tickets, e.model);
  }

  lemma {:induction false} SameSize(S: set<Entry>, T: set<Ticket>, m: string)
    requires T == set x | x in S :: Ticket(m, x)
    ensures |S| == |T|
    decreases S
  {
    if S != {} {
      var x :| x in S;
      SameSize(S - {x}, T - {Ticket(m, x)}, m);
    }
  }

  lemma {:induction false} WeightGrows(a: nat, b: nat, limit: nat)
    requires 1 <= a < b
    ensures Weight(a, limit) + limit + 1 <= Weight(b, limit)
  {
    if a + 1 < b {
      WeightGrows(a, b - 1, limit);
    }
  }

  lemma {:induction false} WeightIs(older: nat, limit: nat)
    ensures Weight(older + 1, limit) == older * (limit + 1)
  {
    if older > 0 {
      WeightIs(older - 1, limit);
    }
  }

  /** A lexicographic descent is a descent of the potential. */
  lemma PotentialDrops(cfg: Config, s: State, s': State, e: Ticket, over: bool)
    requires e in s'.queue && |BurstLeft(s', e)| <= QueueLimit(cfg)
    requires Ahead(s', e) <= Ahead(s, e)
    requires over ==> Ahead(s', e) < Ahead(s, e) || BurstLeft(s', e) < BurstLeft(s, e)
    requires !over ==> BurstLeft(s', e) <= BurstLeft(s, e)
    ensures Potential(cfg, s', e) + (if over then 1 else 0) <= Potential(cfg, s, e)
  {
    assert e in Ahead(s', e);
    SubsetSize(Ahead(s', e), Ahead(s, e));
    if Ahead(s', e) != Ahead(s, e) {
      WeightGrows(|Ahead(s', e)|, |Ahead(s, e)|, QueueLimit(cfg));
    } else {
      SubsetSize(BurstLeft(s', e), BurstLeft(s, e));
    }
  }

  lemma PotentialStep(cfg: Config, s: State, ev: Event, e: Ticket)
    requires Inv(cfg, s) && e in s.queue && e in Next(cfg, s, ev).queue
    ensures Potential(cfg, Next(cfg, s, ev), e) + (if Overtakes(cfg, s, ev, e) then 1 else 0) <= Potential(cfg, s, e)
  {
    OvertakingStep(cfg, s, ev, e);
    InvStep(cfg, s, ev);
    BurstLeftBounded(cfg, Next(cfg, s, ev), e);
    PotentialDrops(cfg, s, Next(cfg, s, ev), e, Overtakes(cfg, s, ev, e));
  }

  ghost predicate StaysQueued(cfg: Config, s: State, es: seq<Event>, e: Ticket)
    decreases |es|
  {
    e in s.queue && (es != [] ==> StaysQueued(cfg, Next(cfg, s, es[0]), es[1..], e))
  }

  ghost function Overtakings(cfg: Config, s: State, es: seq<Event>, e: Ticket): nat
    decreases |es|
  {
    if es == [] then 0
    else (if Overtakes(cfg, s, es[0], e) then 1 else 0) + Overtakings(cfg, Next(cfg, s, es[0]), es[1..], e)
  }

  lemma {:induction false} PotentialRun(cfg: Config, s: State, es: seq<Event>, e: Ticket)
    requires Inv(cfg, s) && StaysQueued(cfg, s, es, e)
    ensures Overtakings(cfg, s, es, e) + Potential(cfg, Run(cfg, s, es), e) <= Potential(cfg, s, e)
    ensures e in Run(cfg, s, es).queue
    decreases |es|
  {
    if es != [] {
      PotentialStep(cfg, s, es[0], e);
      InvStep(cfg, s, es[0]);
      PotentialRun(cfg, Next(cfg, s, es[0]), es[1..], e);
    }
  }

  lemma AheadSize(s: State, e: Ticket)
    requires e in s.queue
    ensures |Ahead(s, e)| == |Ahead(s, e) - {e}| + 1
  {
    assert Ahead(s, e) == (Ahead(s, e) - {e}) + {e};
  }

  lemma PotentialIs(cfg: Config, s: State, e: Ticket)
    requires e in s.queue
    ensures Potential(cfg, s, e) == |Ahead(s, e) - {e}| * (QueueLimit(cfg) + 1) + |BurstLeft(s, e)|
  {
    AheadSize(s, e);
    WeightIs(|Ahead(s, e) - {e}|, QueueLimit(cfg));
  }

  /**
   Bounded overtaking: as long as e waits, its class takes at most one full queue of grants per
   older waiter, and one more for the burst running when the count starts.
   */
  lemma BoundedOvertaking(cfg: Config, s: State, es: seq<Event>, e: Ticket)
    requires Inv(cfg, s) && StaysQueued(cfg, s, es, e)
    ensures Overtakings(cfg, s, es, e) <= |Ahead(s, e) - {e}| * (QueueLimit(cfg) + 1) + |BurstLeft(s, e)|
    ensures |BurstLeft(s, e)| <= QueueLimit(cfg)
  {
    PotentialRun(cfg, s, es, e);
    PotentialIs(cfg, s, e);
    BurstLeftBounded(cfg, s, e);
  }

  // ----- Burst contiguity -----

  ghost function MembersOf(s: State, m: string, b: Burst): set<Entry> {
    Members(Waiting(s.queue, m), Some(b))
  }

  /** The grant that opens a burst fixes its members: what of the group was queued in the class right then. */
  lemma BurstOpens(cfg: Config, s: State, m: string)
    requires Inv(cfg, s) && cfg.contiguous && Grant(cfg, s, Release(m)).Some?
    requires var S := Waiting(s.queue, m);
             |S| > 1 && !Draining(true, BurstOf(s, m), S) && Grant(cfg, s, Release(m)).value.entry.group.Some?
    ensures var S := Waiting(s.queue, m);
            var s' := Next(cfg, s, Release(m));
            var head := Grant(cfg, s, Release(m)).value.entry;
            && m in s'.policies && s'.policies[m].Some?
            && MembersOf(s', m, s'.policies[m].value)
               == (set x | x in S && x.priority == head.priority && x.group == head.group) - {head}
  {
    GrantEffect(cfg, s, m);
    BurstOpensWith(BurstOf(s, m), Waiting(s.queue, m));
  }

  lemma WaitingWithout(queue: set<Ticket>, m: string, x: Entry)
    ensures Waiting(queue - {Ticket(m, x)}, m) == Waiting(queue, m) - {x}
  {
  }

  /** What a release that grants does to its model's waiters and burst. */
  lemma GrantEffect(cfg: Config, s: State, m: string)
    requires Inv(cfg, s) && Grant(cfg, s, Release(m)).Some?
    ensures var S := Waiting(s.queue, m);
            var s' := Next(cfg, s, Release(m));
            && S != {}
            && Grant(cfg, s, Release(m)).value == Ticket(m, Pick(cfg.contiguous, BurstOf(s, m), S))
            && Waiting(s'.queue, m) == S - {Pick(cfg.contiguous, BurstOf(s, m), S)}
            && (|S| != 1 ==> m in s'.policies && s'.policies[m] == NextBurst(cfg.contiguous, BurstOf(s, m), S))
  {
    var r := Released(s, m);
    var S := Waiting(s.queue, m);
    assert r.queue == s.queue && r.policies == s.policies;
    WaitingWithout(s.queue, m, Pick(cfg.contiguous, BurstOf(r, m), S));
  }

  lemma LastWaiter(S: set<Entry>, x: Entry)
    requires x in S && |S| == 1
    ensures S - {x} == {}
  {
    assert |S - {x}| == 0;
  }

  /** One step of a running burst. */
  lemma BurstStep(cfg: Config, s: State, ev: Event, m: string, b: Burst)
    requires Inv(cfg, s) && cfg.contiguous && BurstOf(s, m) == Some(b) && MembersOf(s, m, b) != {}
    requires ev == Release(m) ==> forall x :: x in Waiting(s.queue, m) ==> b.priority <= x.priority
    ensures var s' := Next(cfg, s, ev);
            && MembersOf(s', m, b) <= MembersOf(s, m, b)
            && (MembersOf(s', m, b) != {} ==> BurstOf(s', m) == Some(b))
            && (ev == Release(m) && Grant(cfg, s, ev).Some? ==>
                  && Grant(cfg, s, ev).value == Ticket(m, Oldest(MembersOf(s, m, b)))
                  && MembersOf(s', m, b) == MembersOf(s, m, b) - {Oldest(MembersOf(s, m, b))})
  {
    QueueStep(cfg, s, ev);
    MembersShrink(cfg, s, Next(cfg, s, ev), m);
    if ev != Release(m) {
      PolicyStep(cfg, s, ev, m);
    } else if Grant(cfg, s, ev).Some? {
      GrantEffect(cfg, s, m);
      BurstDrains(b, Waiting(s.queue, m));
      if |Waiting(s.queue, m)| == 1 {
        LastWaiter(Waiting(s.queue, m), Grant(cfg, s, ev).value.entry);
      }
    } else {
      var x :| x in MembersOf(s, m, b);
      assert x in Waiting(s.queue, m);
    }
  }

  /** No higher class of the model waits at any of its releases. */
  ghost predicate Uninterrupted(cfg: Config, s: State, es: seq<Event>, m: string, p: int)
    decreases |es|
  {
    es != [] ==>
      && (es[0] == Release(m) ==> forall x :: x in Waiting(s.queue, m) ==> p <= x.priority)
      && Uninterrupted(cfg, Next(cfg, s, es[0]), es[1..], m, p)
  }

  /** The grants to the model made while a member of the burst is still queued. */
  ghost function BurstGrants(cfg: Config, s: State, es: seq<Event>, m: string, b: Burst): seq<Entry>
    decreases |es|
  {
    if es == [] || MembersOf(s, m, b) == {} then []
    else
      (if es[0] == Release(m) && Grant(cfg, s, es[0]).Some? then [Grant(cfg, s, es[0]).value.entry] else [])
      + BurstGrants(cfg, Next(cfg, s, es[0]), es[1..], m, b)
  }

  /** The grants g take members out of S, oldest first. */
  ghost predicate InOrder(S: set<Entry>, g: seq<Entry>) {
    && (forall i :: 0 <= i < |g| ==> g[i] in S)
    && (forall i, j :: 0 <= i < j < |g| ==> g[i].arrival < g[j].arrival)
  }

  lemma OldestFirst(S: set<Entry>, head: Entry, rest: seq<Entry>)
    requires Distinct(S) && S != {} && head == Oldest(S) && InOrder(S - {head}, rest)
    ensures InOrder(S, [head] + rest)
  {
    forall i | 0 <= i < |rest|
      ensures head.arrival < rest[i].arrival
    {
      assert rest[i] in S && rest[i] != head;
    }
  }

  lemma DistinctMembers(cfg: Config, s: State, m: string, b: Burst)
    requires Inv(cfg, s)
    ensures Distinct(MembersOf(s, m, b))
  {
    forall x, y | x in MembersOf(s, m, b) && y in MembersOf(s, m, b) && x.arrival == y.arrival
      ensures x == y
    {
      assert Ticket(m, x) in s.queue && Ticket(m, y) in s.queue;
    }
  }

  /**
   Burst contiguity: until its last member leaves the queue an uninterrupted burst takes every grant
   of its model, in arrival order, and only the members it started with ever belong to it.
   */
  lemma {:induction false} BurstContiguity(cfg: Config, s: State, es: seq<Event>, m: string, b: Burst)
    requires Inv(cfg, s) && cfg.contiguous && BurstOf(s, m) == Some(b) && MembersOf(s, m, b) != {}
    requires Uninterrupted(cfg, s, es, m, b.priority)
    ensures InOrder(MembersOf(s, m, b), BurstGrants(cfg, s, es, m, b))
    decreases |es|
  {
    if es != [] {
      var s' := Next(cfg, s, es[0]);
      var rest := BurstGrants(cfg, s', es[1..], m, b);
      BurstStep(cfg, s, es[0], m, b);
      assert InOrder(MembersOf(s', m, b), rest) by {
        if MembersOf(s', m, b) != {} {
          InvStep(cfg, s, es[0]);
          BurstContiguity(cfg, s', es[1..], m, b);
        }
      }
      if es[0] == Release(m) && Grant(cfg, s, es[0]).Some? {
        DistinctMembers(cfg, s, m, b);
        OldestFirst(MembersOf(s, m, b), Oldest(MembersOf(s, m, b)), rest);
      }
    }
  }
}
