/** The threads that call the admission controller, with what each gets back from it. */
module AdmissionCallers {
  import opened Wrappers
  import opened AdmissionSpec
  import opened AdmissionSystem
  import opened AdmissionControllers

  class Callers {
    const controller: AdmissionController
    var arrivals: nat
    var parked: map<nat, Ticket>
    var holders: multiset<string>
    var outcomes: map<nat, Outcome>

    ghost var callers: seq<nat>

    ghost function View(): System
      reads this, controller, controller.policies.Values
    {
      System(controller.View(), arrivals, parked, callers, controller.granted, holders, outcomes)
    }

    ghost predicate Valid()
      reads this, controller, controller.policies.Values
    {
      controller.Valid()
    }

    constructor (config: Config)
      ensures Valid() && fresh(controller) && fresh(controller.policies.Values)
      ensures controller.cfg == config && View() == START
    {
      controller := new AdmissionController(config);
      arrivals, parked, holders, outcomes, callers := 0, map[], multiset{}, map[], [];
    }

    /** A thread enters admit(): it is answered at once or falls asleep. */
    method Call(model: string, tag: Option<string>, group: Option<string>)
      requires Valid()
      modifies this, controller
      ensures Valid() && controller.policies == old(controller.policies)
      ensures View() == Act(controller.cfg, old(View()), AdmissionSystem.Call(model, tag, group))
    {
      ghost var s := View();
      var reply := controller.Answer(model, tag, group);
      Answered(s, model, reply);
    }

    /** What the thread makes of the controller's reply. */
    method Answered(ghost s: System, model: string, reply: Reply)
      requires Valid() && View() == s.(ctl := AfterReply(s.ctl, model, reply))
      modifies this`arrivals, this`parked, this`holders, this`outcomes, this`callers
      ensures Valid() && View() == OnCall(controller.cfg, s, model, reply)
    {
      match reply {
        case Settled(outcome) =>
          Returned(arrivals, model, outcome);
        case Parked(ticket) =>
          parked := parked[arrivals := ticket];
          callers := callers + [arrivals];
      }
      arrivals := arrivals + 1;
      assert controller.View() == AfterReply(s.ctl, model, reply);
    }

    /** A call of admit() returns; an admitted one holds a slot. */
    method Returned(id: nat, model: string, outcome: Outcome)
      modifies this`holders, this`outcomes
      ensures outcomes == old(outcomes)[id := outcome]
      ensures holders == if outcome == Admitted then old(holders) + multiset{model} else old(holders)
    {
      outcomes := outcomes[id := outcome];
      if outcome == Admitted {
        holders := holders + multiset{model};
      }
    }

    /** A sleeping thread's wait is over, and admit() returns. */
    method Wake(id: nat)
      requires Valid() && id in parked
      modifies this, controller
      ensures Valid() && controller.policies == old(controller.policies)
      ensures View() == Act(controller.cfg, old(View()), AdmissionSystem.Wake(id))
    {
      var ticket := parked[id];
      var outcome := controller.Wake(ticket);
      parked := parked - {id};
      Returned(id, ticket.model, outcome);
    }

    /** The slot a thread was given goes out of scope. */
    method Finish(model: string)
      requires Valid() && holders[model] > 0
      modifies this, controller, controller.policies.Values
      ensures Valid() && fresh(controller.policies.Values - old(controller.policies.Values))
      ensures View() == Act(controller.cfg, old(View()), AdmissionSystem.Finish(model))
    {
      controller.ReleaseSlot(model);
      ghost var ctl := controller.View();
      holders := holders - multiset{model};
      assert controller.View() == ctl;
    }

    method Do(act: Action)
      requires Valid() && CanAct(View(), act)
      modifies this, controller, controller.policies.Values
      ensures Valid() && fresh(controller.policies.Values - old(controller.policies.Values))
      ensures View() == Act(controller.cfg, old(View()), act)
    {
      match act
      case Call(model, tag, group) => Call(model, tag, group);
      case Wake(id) => Wake(id);
      case Finish(model) => Finish(model);
    }
  }

  /**
   Any schedule of calls, wake-ups and releases over one controller: its threads stay in the states of the system's
   run, so each call is answered once, with the answer the controller returned, and no slot is lost.
   */
  method Serve(config: Config, acts: seq<Action>) returns (threads: Callers)
    requires LegalActs(config, START, acts)
    ensures fresh(threads) && threads.Valid() && threads.controller.cfg == config
    ensures threads.View() == ActAll(config, START, acts) && SystemInv(config, threads.View())
    ensures forall id: nat :: id < threads.arrivals <==> id in threads.parked || id in threads.outcomes
    ensures forall id :: id in threads.parked ==> id !in threads.outcomes
    ensures forall m :: Count(threads.controller.inflight, m)
                        == threads.holders[m] + |GrantedFor(threads.controller.granted, m)| <= NonNegative(config.cap)
  {
    threads := new Callers(config);
    for i := 0 to |acts|
      invariant fresh(threads) && fresh(threads.controller) && fresh(threads.controller.policies.Values)
      invariant threads.Valid() && threads.controller.cfg == config
      invariant LegalActs(config, threads.View(), acts[i..])
      invariant ActAll(config, threads.View(), acts[i..]) == ActAll(config, START, acts)
    {
      assert acts[i..][0] == acts[i] && acts[i..][1..] == acts[i + 1..];
      threads.Do(acts[i]);
    }
    assert acts[|acts|..] == [];
    StartIsInv(config);
    SingleOutcome(config, START, acts);
    EveryCallEndsOnce(config, acts);
  }
}
