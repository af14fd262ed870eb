/**
 What the affinity policy decides, stated on the set of queued entries, so that no decision
 can depend on the order in which a caller lists them.
 */
module AffinitySpec {
  import opened Wrappers

  /** All of a waiting request that a decision depends on. */
  datatype Entry = Entry(priority: int, group: Option<string>, arrival: nat)

  /** A group being served without interruption: its members are those queued up to a ceiling on ordinals. */
  datatype Burst = Burst(priority: int, group: string, queuedThrough: nat)

  /** Arrival ordinals name entries. */
  ghost predicate Distinct(S: set<Entry>) {
    forall x, y :: x in S && y in S && x.arrival == y.arrival ==> x == y
  }

  ghost function Lowest(S: set<Entry>): (p: int)
    requires S != {}
    ensures exists e :: e in S && e.priority == p
    ensures forall e :: e in S ==> p <= e.priority
  {
    LeastBy((e: Entry) => e.priority, S).priority
  }

  ghost function Highest(S: set<Entry>): (a: nat)
    requires S != {}
    ensures exists e :: e in S && e.arrival == a
    ensures forall e :: e in S ==> e.arrival <= a
  {
    var key: Entry -> int := (e: Entry) => 0 - e.arrival;
    LeastBy(key, S).arrival
  }

  ghost function Oldest(S: set<Entry>): (o: Entry)
    requires S != {}
    ensures o in S
    ensures forall e :: e in S ==> o.arrival <= e.arrival
  {
    LeastBy((e: Entry) => e.arrival, S)
  }

  ghost function Class(S: set<Entry>, p: int): set<Entry> {
    set e | e in S && e.priority == p
  }

  /** The entries the burst still has to serve. */
  ghost function Members(S: set<Entry>, b: Option<Burst>): set<Entry> {
    set e | e in S && b.Some? && e.priority == b.value.priority
            && e.group == Some(b.value.group) && e.arrival <= b.value.queuedThrough
  }

  /** The burst decides the next grant. */
  ghost predicate Draining(contiguous: bool, b: Option<Burst>, S: set<Entry>)
    requires S != {}
  {
    contiguous && Members(S, b) != {} && b.value.priority == Lowest(S)
  }

  /** The entries among which the oldest is granted. */
  ghost function Pool(contiguous: bool, b: Option<Burst>, S: set<Entry>): (pool: set<Entry>)
    requires S != {}
    ensures pool != {} && pool <= Class(S, Lowest(S))
  {
    assert exists e :: e in Class(S, Lowest(S)) by {
      var e :| e in S && e.priority == Lowest(S);
      assert e in Class(S, Lowest(S));
    }
    if Draining(contiguous, b, S) then Members(S, b) else Class(S, Lowest(S))
  }

  ghost function Pick(contiguous: bool, b: Option<Burst>, S: set<Entry>): (e: Entry)
    requires S != {}
    ensures e in S
  {
    Oldest(Pool(contiguous, b, S))
  }

  /** Among distinct arrivals the oldest of the pool is one entry. */
  lemma PickIs(contiguous: bool, b: Option<Burst>, S: set<Entry>, e: Entry)
    requires S != {} && Distinct(S)
    requires e in Pool(contiguous, b, S)
    requires forall x :: x in Pool(contiguous, b, S) ==> e.arrival <= x.arrival
    ensures Pick(contiguous, b, S) == e
  {
  }

  /** The burst carried to the next grant. */
  ghost function NextBurst(contiguous: bool, b: Option<Burst>, S: set<Entry>): Option<Burst>
    requires S != {}
  {
    if !contiguous || Draining(contiguous, b, S) then b
    else match Pick(contiguous, b, S).group
      case Some(g) => Some(Burst(Lowest(S), g, Highest(S)))
      case None => None
  }

  /** A burst never reaches past the ordinals handed out so far. */
  lemma BurstBelow(contiguous: bool, b: Option<Burst>, S: set<Entry>, next: nat)
    requires S != {} && forall e :: e in S ==> e.arrival < next
    requires b.Some? ==> b.value.queuedThrough < next
    ensures var b' := NextBurst(contiguous, b, S); b'.Some? ==> b'.value.queuedThrough < next
  {
  }

  /** Two bursts no queue can tell apart: equal, or both without a queued member. */
  ghost predicate Interchangeable(S: set<Entry>, b: Option<Burst>, b': Option<Burst>) {
    b == b' || Members(S, b) == Members(S, b') == {}
  }

  /** The selection law: strict priority, and nobody of the same class and group overtaken. */
  lemma SelectionLaw(contiguous: bool, b: Option<Burst>, S: set<Entry>)
    requires S != {} && Distinct(S)
    ensures var e := Pick(contiguous, b, S);
            && e in S
            && (forall x :: x in S ==> e.priority <= x.priority)
            && (forall x :: x in S && x.priority == e.priority && x.group == e.group ==> e.arrival <= x.arrival)
            && (e.group == None ==> forall x :: x in S && x.priority == e.priority ==> e.arrival <= x.arrival)
            && (!contiguous ==> forall x :: x in S && x.priority == e.priority ==> e.arrival <= x.arrival)
  {
    var e := Pick(contiguous, b, S);
    if Draining(contiguous, b, S) {
      forall x | x in S && x.priority == e.priority && x.group == e.group
        ensures e.arrival <= x.arrival
      {
        assert x.arrival <= b.value.queuedThrough ==> x in Members(S, b);
      }
    } else {
      assert forall x :: x in S && x.priority == e.priority ==> x in Class(S, Lowest(S));
    }
  }

  /** Interchangeable bursts decide alike and leave the same burst behind, unless contiguity is off. */
  lemma InterchangeablePick(contiguous: bool, b: Option<Burst>, b': Option<Burst>, S: set<Entry>)
    requires S != {} && Interchangeable(S, b, b')
    ensures Pick(contiguous, b, S) == Pick(contiguous, b', S)
    ensures contiguous ==> NextBurst(contiguous, b, S) == NextBurst(contiguous, b', S)
  {
  }

  /** A new burst consists of its group's entries queued in the class at that moment, less the head. */
  lemma BurstOpensWith(b: Option<Burst>, S: set<Entry>)
    requires S != {} && !Draining(true, b, S) && Pick(true, b, S).group.Some?
    ensures var head := Pick(true, b, S);
            && NextBurst(true, b, S).Some?
            && Members(S - {head}, NextBurst(true, b, S))
               == (set x | x in S && x.priority == head.priority && x.group == head.group) - {head}
  {
  }

  /** A draining burst hands out its oldest member and keeps the rest. */
  lemma BurstDrains(b: Burst, S: set<Entry>)
    requires Members(S, Some(b)) != {} && forall x :: x in S ==> b.priority <= x.priority
    ensures S != {} && Pick(true, Some(b), S) == Oldest(Members(S, Some(b)))
    ensures NextBurst(true, Some(b), S) == Some(b)
    ensures Members(S - {Pick(true, Some(b), S)}, Some(b)) == Members(S, Some(b)) - {Pick(true, Some(b), S)}
  {
    var x :| x in Members(S, Some(b));
    assert Draining(true, Some(b), S);
  }
}
