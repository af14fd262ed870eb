/** router/affinity.hpp: the policy object, its burst and the loops over the queued entries. */
module AffinityPolicies {
  import opened Wrappers
  import opened AffinitySpec

  ghost function Elems(entries: seq<Entry>): (S: set<Entry>)
    ensures entries != [] ==> S != {}
  {
    var S := set e | e in entries;
    assert entries != [] ==> entries[0] in S;
    S
  }

  /** What the caller promises: the ordinals were handed out under one lock, so none repeats. */
  ghost predicate UniqueArrivals(entries: seq<Entry>) {
    forall i, j :: 0 <= i < j < |entries| ==> entries[i].arrival != entries[j].arrival
  }

  method LowestPriority(entries: seq<Entry>) returns (lowest: int)
    requires entries != []
    ensures lowest == Lowest(Elems(entries))
  {
    lowest := entries[0].priority;
    for i := 0 to |entries|
      invariant exists e :: e in entries && e.priority == lowest
      invariant forall j :: 0 <= j < i ==> lowest <= entries[j].priority
    {
      if entries[i].priority < lowest {
        lowest := entries[i].priority;
      }
    }
    assert entries[0] in Elems(entries);
    var e :| e in entries && e.priority == lowest;
    assert e in Elems(entries);
  }

  method HighestArrival(entries: seq<Entry>) returns (highest: nat)
    requires entries != []
    ensures highest == Highest(Elems(entries))
  {
    highest := entries[0].arrival;
    for i := 0 to |entries|
      invariant exists e :: e in entries && e.arrival == highest
      invariant forall j :: 0 <= j < i ==> entries[j].arrival <= highest
    {
      if highest < entries[i].arrival {
        highest := entries[i].arrival;
      }
    }
    assert entries[0] in Elems(entries);
    var e :| e in entries && e.arrival == highest;
    assert e in Elems(entries);
  }

  method OldestInClass(entries: seq<Entry>, priority: int) returns (oldest: nat)
    ensures Class(Elems(entries), priority) == {} ==> oldest == |entries|
    ensures Class(Elems(entries), priority) != {} ==>
              && oldest < |entries|
              && entries[oldest] in Class(Elems(entries), priority)
              && forall x :: x in Class(Elems(entries), priority) ==> entries[oldest].arrival <= x.arrival
  {
    ghost var members := Class(Elems(entries), priority);
    oldest := |entries|;
    for index := 0 to |entries|
      invariant oldest == |entries| ==> forall j :: 0 <= j < index ==> entries[j] !in members
      invariant oldest != |entries| ==>
                  && oldest < index && entries[oldest] in members
                  && forall j :: 0 <= j < index && entries[j] in members ==>
                     entries[oldest].arrival <= entries[j].arrival
    {
      if entries[index].priority == priority {
        if oldest == |entries| || entries[index].arrival < entries[oldest].arrival {
          oldest := index;
        }
      }
    }
  }

  class AffinityPolicy {
    const contiguous: bool
    var burst: Option<Burst>

    constructor (contiguous: bool)
      ensures this.contiguous == contiguous && burst == None
    {
      this.contiguous := contiguous;
      burst := None;
    }

    method OldestBurstMember(entries: seq<Entry>, priority: int) returns (oldest: Option<nat>)
      requires burst.Some? && burst.value.priority == priority
      ensures oldest == None <==> Members(Elems(entries), burst) == {}
      ensures oldest.Some? ==>
                && oldest.value < |entries|
                && entries[oldest.value] in Members(Elems(entries), burst)
                && forall x :: x in Members(Elems(entries), burst) ==> entries[oldest.value].arrival <= x.arrival
    {
      ghost var members := Members(Elems(entries), burst);
      oldest := None;
      for index := 0 to |entries|
        invariant oldest == None ==> forall j :: 0 <= j < index ==> entries[j] !in members
        invariant oldest.Some? ==>
                    && oldest.value < index && entries[oldest.value] in members
                    && forall j :: 0 <= j < index && entries[j] in members ==>
                       entries[oldest.value].arrival <= entries[j].arrival
      {
        var entry := entries[index];
        if entry.priority == priority && entry.group.Some? && entry.group.value == burst.value.group
           && entry.arrival <= burst.value.queuedThrough
        {
          if oldest == None || entry.arrival < entries[oldest.value].arrival {
            oldest := Some(index);
          }
        }
      }
    }

    /** The last half of selectNext: the oldest of the class is chosen, and opens a burst if it is tagged. */
    method StartBurst(entries: seq<Entry>, eligible: int) returns (head: nat)
      requires entries != [] && UniqueArrivals(entries)
      requires eligible == Lowest(Elems(entries)) && contiguous && !Draining(contiguous, burst, Elems(entries))
      modifies this
      ensures head < |entries| && entries[head] == Pick(contiguous, old(burst), Elems(entries))
      ensures burst == NextBurst(contiguous, old(burst), Elems(entries))
    {
      head := OldestInClass(entries, eligible);
      PickIs(contiguous, burst, Elems(entries), entries[head]);
      match entries[head].group {
        case Some(group) =>
          var highest := HighestArrival(entries);
          burst := Some(Burst(eligible, group, highest));
        case None =>
          burst := None;
      }
    }

    /** Picks among the queued entries, by position, and moves the burst on. */
    method SelectNext(entries: seq<Entry>) returns (chosen: Option<nat>)
      requires UniqueArrivals(entries)
      modifies this
      ensures entries == [] ==> chosen == None && burst == old(burst)
      ensures entries != [] ==>
                && chosen.Some? && chosen.value < |entries|
                && entries[chosen.value] == Pick(contiguous, old(burst), Elems(entries))
                && burst == NextBurst(contiguous, old(burst), Elems(entries))
    {
      if entries == [] {
        return None;
      }
      var eligible := LowestPriority(entries);
      if !contiguous {
        var plain := OldestInClass(entries, eligible);
        PickIs(contiguous, burst, Elems(entries), entries[plain]);
        return Some(plain);
      }
      if burst.Some? && burst.value.priority == eligible {
        var member := OldestBurstMember(entries, eligible);
        if member.Some? {
          PickIs(contiguous, burst, Elems(entries), entries[member.value]);
          return member;
        }
      }
      var head := StartBurst(entries, eligible);
      return Some(head);
    }
  }
}
