/**
 The upstream relay as a protocol between two threads, the upstream reader and the downstream side,
 over one shared record. Each critical section is one step; a condition-variable wait is a thread that
 sleeps until a notification; a notification sent after the lock is released is a step of its own.
 */
module RelayProtocol {
  import opened Wrappers

  /** The shared record, as a value. */
  datatype Relay = Relay(pending: seq<Byte>, headersReady: bool, finished: bool, cancelled: bool, streaming: bool,
                         succeeded: bool)

  const FRESH := Relay([], false, false, false, false, false)

  // ----- The critical sections -----

  function OnHead(r: Relay): Relay {
    if r.cancelled then r else r.(headersReady := true)
  }

  function OnReceive(r: Relay, data: seq<Byte>): Relay {
    if r.cancelled then r else r.(pending := r.pending + data)
  }

  function OnReturn(r: Relay, ok: bool): Relay {
    r.(headersReady := r.headersReady || ok, succeeded := ok, finished := true)
  }

  function OnStream(r: Relay): Relay {
    r.(streaming := true)
  }

  function OnTake(r: Relay): Relay {
    r.(pending := [])
  }

  function OnCancel(r: Relay): Relay {
    r.(cancelled := true)
  }

  /** The reader's wait after each chunk is over. */
  predicate ReaderMayGo(r: Relay, highWater: nat) {
    r.cancelled || !r.streaming || |r.pending| <= highWater
  }

  predicate UpstreamFailed(r: Relay) {
    (r.finished && !r.succeeded) || r.cancelled
  }

  // ----- The threads -----

  /** Ready: inside the upstream call, between callbacks. Unwinding: a callback refused to go on. */
  datatype Reader = Ready | Parked | Unwinding | Returned

  /** How the downstream response ended. */
  datatype Ending =
    | NoAnswer            // 502: the upstream never answered
    | Truncated           // 502: the answer was cut short before a byte went downstream
    | Whole(body: seq<Byte>)
    | Done                // a chunked stream with its terminating chunk
    | Aborted             // a chunked stream without it

  datatype Downstream =
    | AwaitHead
    | HeadSeen
    | AwaitBody
    | Idle                // between two calls of the content provider
    | AwaitBytes          // inside the provider's wait
    | Holding(chunk: seq<Byte>, complete: bool, failed: bool)
    | Ended(ending: Ending)
    | Joining(ending: Ending)

  /** The wait the downstream side is in is over. */
  predicate DownMayGo(r: Relay, d: Downstream) {
    match d
    case AwaitHead => r.headersReady || r.finished
    case AwaitBody => r.finished
    case AwaitBytes => r.pending != [] || r.finished || r.cancelled
    case _ => true
  }

  /**
   The whole exchange. asleep: parked on the condition variable; owes: has released the lock and still
   has to notify. received, written: bytes so far, from upstream and to the client. mark: what pending
   held when streaming was switched on, or the high-water mark if more or once drained; last: the
   length of the last chunk.
   */
  datatype Exchange = Exchange(relay: Relay, reader: Reader, down: Downstream,
                               readerAsleep: bool, readerOwes: bool, downAsleep: bool, downOwes: bool,
                               received: seq<Byte>, written: seq<Byte>, mark: nat, last: nat)

  const BEGIN := Exchange(FRESH, Ready, AwaitHead, false, false, false, false, [], [], 0, 0)

  /** The upstream's answer, whether it comes incrementally, and the relay's high-water mark. */
  datatype Setting = Setting(body: seq<Byte>, incremental: bool, highWater: nat)

  datatype Action =
    | Head | Receive(data: seq<Byte>) | ReaderWakes | Return(ok: bool) | ReaderNotify | ReaderSpurious
    | SeeHead | Choose | CollectBody | EnterProvider | TakeBytes | Sleep | DownNotify | DownSpurious
    | Write | WriteFails(sent: nat) | Disconnect | Destroy

  predicate ReaderAction(act: Action) {
    act.Head? || act.Receive? || act.ReaderWakes? || act.Return? || act.ReaderNotify?
  }

  predicate DownAction(act: Action) {
    !ReaderAction(act) && act != ReaderSpurious && act != DownSpurious
  }

  predicate Enabled(ctx: Setting, x: Exchange, act: Action) {
    match act
    case Head => x.reader == Ready && !x.readerOwes && !x.relay.headersReady
    // Content follows the response line, and what arrives is a piece of the answer.
    case Receive(data) => x.reader == Ready && !x.readerOwes && x.relay.headersReady && data != []
        && x.received + data <= ctx.body
    case ReaderWakes => x.reader == Parked && !x.readerAsleep
    // A refused callback fails the call; a call that succeeds has delivered the whole answer.
    case Return(ok) => !x.readerOwes && (x.reader == Ready || (x.reader == Unwinding && !ok))
        && (ok ==> x.received == ctx.body)
    case ReaderNotify => x.readerOwes
    case ReaderSpurious => x.readerAsleep
    case SeeHead => x.down == AwaitHead && !x.downAsleep && DownMayGo(x.relay, x.down)
    case Choose => x.down == HeadSeen
    case CollectBody => x.down == AwaitBody && !x.downAsleep && DownMayGo(x.relay, x.down)
    case EnterProvider => x.down == Idle && !x.downOwes
    case TakeBytes => x.down == AwaitBytes && !x.downAsleep && DownMayGo(x.relay, x.down)
    case Sleep => !x.downAsleep && !DownMayGo(x.relay, x.down)
    case DownNotify => x.downOwes
    case DownSpurious => x.downAsleep
    case Write => x.down.Holding? && !x.downOwes
    case WriteFails(sent) => x.down.Holding? && !x.downOwes && x.down.chunk != [] && sent <= |x.down.chunk|
    case Disconnect => x.down == Idle && !x.downOwes
    case Destroy => x.down.Ended? && !x.downOwes
  }

  function Max(a: nat, b: nat): nat { if a < b then b else a }

  function Woken(x: Exchange): Exchange {
    x.(readerAsleep := false, downAsleep := false)
  }

  /** The content receiver: append, notify under the lock, then wait until the reader may go on. */
  function AfterReceive(ctx: Setting, x: Exchange, data: seq<Byte>): Exchange {
    if x.relay.cancelled then x.(reader := Unwinding)
    else
      var r := OnReceive(x.relay, data);
      var y := Woken(x).(relay := r, received := x.received + data, last := |data|);
      if ReaderMayGo(r, ctx.highWater) then y else y.(reader := Parked, readerAsleep := true)
  }

  function AfterWake(ctx: Setting, x: Exchange): Exchange {
    if !ReaderMayGo(x.relay, ctx.highWater) then x.(readerAsleep := true)
    else x.(reader := if x.relay.cancelled then Unwinding else Ready)
  }

  /** What follows a successful write, or no write at all: the end, or the next round. */
  function AfterWrite(x: Exchange): Exchange
    requires x.down.Holding?
  {
    var y := x.(written := x.written + x.down.chunk);
    if !x.down.complete then y.(down := Idle)
    else y.(down := Ended(if x.down.failed then Aborted else Done))
  }

  function Step(ctx: Setting, x: Exchange, act: Action): Exchange
    requires Enabled(ctx, x, act)
  {
    match act
    case Head => x.(relay := OnHead(x.relay), readerOwes := true,
                    reader := if x.relay.cancelled then Unwinding else Ready)
    case Receive(data) => AfterReceive(ctx, x, data)
    case ReaderWakes => AfterWake(ctx, x)
    case Return(ok) => x.(relay := OnReturn(x.relay, ok), reader := Returned, readerOwes := true)
    case ReaderNotify => Woken(x).(readerOwes := false)
    case ReaderSpurious => x.(readerAsleep := false)
    case SeeHead => x.(down := if x.relay.headersReady then HeadSeen else Ended(NoAnswer))
    case Choose =>
      if ctx.incremental then x.(relay := OnStream(x.relay), down := Idle,
                                 mark := Max(ctx.highWater, |x.relay.pending|))
      else x.(down := AwaitBody)
    case CollectBody =>
      x.(relay := OnTake(x.relay), down := Ended(if x.relay.succeeded then Whole(x.relay.pending) else Truncated))
    case EnterProvider => x.(down := AwaitBytes)
    case TakeBytes =>
      x.(relay := OnTake(x.relay), mark := ctx.highWater, downOwes := true,
         down := Holding(x.relay.pending, x.relay.finished || x.relay.cancelled, UpstreamFailed(x.relay)))
    case Sleep => x.(downAsleep := true)
    case DownNotify => Woken(x).(downOwes := false)
    case DownSpurious => x.(downAsleep := false)
    case Write => AfterWrite(x)
    case WriteFails(sent) =>
      x.(relay := OnCancel(x.relay), written := x.written + x.down.chunk[..sent], down := Ended(Aborted),
         downOwes := true)
    case Disconnect => x.(down := Ended(Aborted))
    case Destroy => x.(relay := OnCancel(x.relay), down := Joining(x.down.ending), downOwes := true)
  }

  /** The threads are done with each other: the reader has returned and been joined. */
  predicate Over(x: Exchange) {
    x.reader == Returned && !x.readerOwes && x.down.Joining? && !x.downOwes
  }

  // ----- The invariant -----

  /** Bytes on their way to the client, in order. */
  function InHand(d: Downstream): seq<Byte> {
    if d.Holding? then d.chunk else []
  }

  predicate Live(d: Downstream) { !d.Ended? && !d.Joining? }

  predicate EndingHonest(ctx: Setting, x: Exchange, e: Ending) {
    match e
    case NoAnswer => x.written == [] && x.relay.finished && !x.relay.succeeded
    case Truncated => x.written == [] && x.relay.finished && !x.relay.succeeded
    case Whole(body) => x.written == [] && body == ctx.body && x.relay.succeeded
    case Done => x.written == ctx.body && x.relay.succeeded
    case Aborted => x.written <= ctx.body
  }

  predicate Fidelity(ctx: Setting, x: Exchange) {
    && x.received <= ctx.body
    && (Live(x.down) ==> x.written + InHand(x.down) + x.relay.pending == x.received && !x.relay.cancelled)
    && (x.down.Ended? || x.down.Joining? ==> EndingHonest(ctx, x, x.down.ending))
    && (x.relay.succeeded ==> x.received == ctx.body)
    && (x.down.Holding? ==>
          && (x.down.complete ==> x.relay.finished && x.relay.pending == [] && x.down.failed == !x.relay.succeeded)
          && (!x.down.complete ==> x.down.chunk != []))
  }

  predicate EndingFits(ctx: Setting, e: Ending) {
    (e == Done || e == Aborted ==> ctx.incremental) && (e == Truncated || e.Whole? ==> !ctx.incremental)
  }

  predicate Control(ctx: Setting, x: Exchange) {
    && (x.relay.finished <==> x.reader == Returned)
    && (x.relay.succeeded ==> x.relay.finished && x.relay.headersReady)
    && (x.reader == Unwinding ==> x.relay.cancelled)
    && (x.reader == Parked ==> x.relay.streaming && !x.readerOwes)
    && (x.readerAsleep ==> x.reader == Parked)
    && (x.downAsleep ==> (x.down == AwaitHead || x.down == AwaitBody || x.down == AwaitBytes) && !x.downOwes)
    && (x.down == AwaitHead || x.down == HeadSeen || x.down == AwaitBody ==>
        !x.relay.streaming && x.written == [] && !x.downOwes)
    && (x.down == Idle || x.down == AwaitBytes || x.down.Holding? ==> x.relay.streaming)
    && (x.down == AwaitBytes ==> !x.downOwes)
    && (x.relay.streaming ==> ctx.incremental)
    && (x.down == AwaitBody ==> !ctx.incremental)
    && (x.down.Ended? || x.down.Joining? ==> EndingFits(ctx, x.down.ending))
    && (x.down.Joining? || x.down.Ended? || !x.relay.cancelled)
    && (x.down.Joining? ==> x.relay.cancelled)
    && (x.down == Ended(Aborted) && x.downOwes ==> x.relay.cancelled)
  }

  /** No wake-up is lost: a sleeper whose wait is over has a notification coming. */
  predicate WakeUps(ctx: Setting, x: Exchange) {
    && (x.readerAsleep && ReaderMayGo(x.relay, ctx.highWater) ==> x.downOwes)
    && (x.downAsleep && DownMayGo(x.relay, x.down) ==> x.readerOwes)
  }

  predicate BackPressure(ctx: Setting, x: Exchange) {
    x.relay.streaming ==>
      && ctx.highWater <= x.mark
      && |x.relay.pending| <= x.mark + x.last
      && (x.reader == Ready ==> |x.relay.pending| <= x.mark)
  }

  predicate Inv(ctx: Setting, x: Exchange) {
    Fidelity(ctx, x) && Control(ctx, x) && WakeUps(ctx, x) && BackPressure(ctx, x)
  }

  lemma BeginInv(ctx: Setting)
    ensures Inv(ctx, BEGIN)
  {
  }

  lemma ControlStep(ctx: Setting, x: Exchange, act: Action)
    requires Inv(ctx, x) && Enabled(ctx, x, act)
    ensures Control(ctx, Step(ctx, x, act))
  {
    if DownAction(act) {
      ControlDown(ctx, x, act);
    } else {
      ControlUp(ctx, x, act);
    }
  }

  lemma ControlUp(ctx: Setting, x: Exchange, act: Action)
    requires Inv(ctx, x) && Enabled(ctx, x, act) && !DownAction(act)
    ensures Control(ctx, Step(ctx, x, act))
  {
    if act.Receive? {
      ControlReceive(ctx, x, act.data);
    } else if act.ReaderWakes? {
      ControlWake(ctx, x);
    }
  }

  lemma ControlReceive(ctx: Setting, x: Exchange, data: seq<Byte>)
    requires Inv(ctx, x) && Enabled(ctx, x, Receive(data))
    ensures Control(ctx, AfterReceive(ctx, x, data))
  {
  }

  lemma ControlWake(ctx: Setting, x: Exchange)
    requires Inv(ctx, x) && Enabled(ctx, x, ReaderWakes)
    ensures Control(ctx, AfterWake(ctx, x))
  {
  }

  lemma ControlDown(ctx: Setting, x: Exchange, act: Action)
    requires Inv(ctx, x) && Enabled(ctx, x, act) && DownAction(act)
    ensures Control(ctx, Step(ctx, x, act))
  {
  }

  lemma WakeUpsStep(ctx: Setting, x: Exchange, act: Action)
    requires Inv(ctx, x) && Enabled(ctx, x, act)
    ensures WakeUps(ctx, Step(ctx, x, act))
  {
  }

  lemma BackPressureStep(ctx: Setting, x: Exchange, act: Action)
    requires Inv(ctx, x) && Enabled(ctx, x, act)
    ensures BackPressure(ctx, Step(ctx, x, act))
  {
  }

  lemma FidelityReceive(ctx: Setting, x: Exchange, data: seq<Byte>)
    requires Inv(ctx, x) && Enabled(ctx, x, Receive(data))
    ensures Fidelity(ctx, AfterReceive(ctx, x, data))
  {
    assert x.written + InHand(x.down) + (x.relay.pending + data) == x.written + InHand(x.down) + x.relay.pending + data;
  }

  /** Whatever the provider takes was all there was, and a complete stream is a stream that finished. */
  lemma FidelityDown(ctx: Setting, x: Exchange, act: Action)
    requires Inv(ctx, x) && Enabled(ctx, x, act)
    requires act.TakeBytes? || act.CollectBody? || act.Write?
    ensures Fidelity(ctx, Step(ctx, x, act))
  {
    assert x.written + [] + x.relay.pending == x.written + x.relay.pending + [];
    assert x.written + InHand(x.down) + [] == x.written + InHand(x.down);
    if act.CollectBody? {
      assert [] + InHand(x.down) + x.relay.pending == x.relay.pending;
    }
  }

  lemma FidelityEnds(ctx: Setting, x: Exchange, act: Action)
    requires Inv(ctx, x) && Enabled(ctx, x, act)
    requires act.WriteFails? || act.Disconnect? || act.Destroy? || act.SeeHead?
    ensures Fidelity(ctx, Step(ctx, x, act))
  {
    if act.WriteFails? {
      assert x.written + x.down.chunk[..act.sent] + (x.down.chunk[act.sent..] + x.relay.pending)
             == x.written + InHand(x.down) + x.relay.pending;
    }
  }

  lemma FidelityStep(ctx: Setting, x: Exchange, act: Action)
    requires Inv(ctx, x) && Enabled(ctx, x, act)
    ensures Fidelity(ctx, Step(ctx, x, act))
  {
    if act.Receive? {
      FidelityReceive(ctx, x, act.data);
    } else if act.TakeBytes? || act.CollectBody? || act.Write? {
      FidelityDown(ctx, x, act);
    } else if act.WriteFails? || act.Disconnect? || act.Destroy? || act.SeeHead? {
      FidelityEnds(ctx, x, act);
    }
  }

  lemma InvStep(ctx: Setting, x: Exchange, act: Action)
    requires Inv(ctx, x) && Enabled(ctx, x, act)
    ensures Inv(ctx, Step(ctx, x, act))
  {
    FidelityStep(ctx, x, act);
    ControlStep(ctx, x, act);
    WakeUpsStep(ctx, x, act);
    BackPressureStep(ctx, x, act);
  }

  // ----- Whole runs -----

  ghost predicate Legal(ctx: Setting, x: Exchange, acts: seq<Action>)
    decreases |acts|
  {
    acts != [] ==> Enabled(ctx, x, acts[0]) && Legal(ctx, Step(ctx, x, acts[0]), acts[1..])
  }

  ghost function Run(ctx: Setting, x: Exchange, acts: seq<Action>): Exchange
    requires Legal(ctx, x, acts)
    decreases |acts|
  {
    if acts == [] then x else Run(ctx, Step(ctx, x, acts[0]), acts[1..])
  }

  lemma {:induction false} InvRun(ctx: Setting, x: Exchange, acts: seq<Action>)
    requires Inv(ctx, x) && Legal(ctx, x, acts)
    ensures Inv(ctx, Run(ctx, x, acts))
    decreases |acts|
  {
    if acts != [] {
      InvStep(ctx, x, acts[0]);
      InvRun(ctx, Step(ctx, x, acts[0]), acts[1..]);
    }
  }

  /**
   Byte-exact delivery and an honest ending, in every reachable state: until the response ends, what was
   written, what the provider holds and what is pending are, in that order, what was received; a clean
   end or a buffered answer means a successful upstream and the whole body; everything else sent
   downstream is a prefix without the terminating chunk.
   */
  lemma HonestDelivery(ctx: Setting, acts: seq<Action>)
    requires Legal(ctx, BEGIN, acts)
    ensures var x := Run(ctx, BEGIN, acts);
            && x.written <= ctx.body
            && (Live(x.down) ==> x.written + InHand(x.down) + x.relay.pending == x.received <= ctx.body)
            && (x.down.Ended? || x.down.Joining? ==>
                  match x.down.ending
                  case Done => ctx.incremental && x.relay.succeeded && x.written == ctx.body
                  case Whole(body) => !ctx.incremental && x.relay.succeeded && body == ctx.body
                  case Truncated => !ctx.incremental && !x.relay.succeeded && x.written == []
                  case NoAnswer => !x.relay.succeeded && x.written == []
                  case Aborted => ctx.incremental)
  {
    BeginInv(ctx);
    InvRun(ctx, BEGIN, acts);
    var x := Run(ctx, BEGIN, acts);
    if Live(x.down) {
      assert x.written <= x.written + InHand(x.down) + x.relay.pending;
    }
  }

  /** What goes to the client: the chunk in hand, or what a failing write still got through, and nothing otherwise. */
  lemma WrittenGrowsBy(ctx: Setting, x: Exchange, act: Action)
    requires Enabled(ctx, x, act)
    ensures Step(ctx, x, act).written == x.written + match act
                                                     case Write => x.down.chunk
                                                     case WriteFails(sent) => x.down.chunk[..sent]
                                                     case _ => []
  {
    assert x.written + [] == x.written;
  }

  // ----- How a response ends, exactly -----

  /** The client went away: a write failed, or it disconnected. */
  predicate Breaks(act: Action) {
    act.WriteFails? || act.Disconnect?
  }

  ghost predicate Broken(acts: seq<Action>) {
    exists act :: act in acts && Breaks(act)
  }

  /**
   The ending the answer must get: without a head there is none; a buffered answer is relayed whole or, cut short,
   not at all; a stream ends cleanly unless the client went away or the upstream failed.
   */
  function EndingDue(ctx: Setting, x: Exchange, broken: bool): Ending {
    if !x.relay.headersReady then NoAnswer
    else if !ctx.incremental then if x.relay.succeeded then Whole(ctx.body) else Truncated
    else if broken || !x.relay.succeeded then Aborted
    else Done
  }

  /** A response that has ended has the ending due, for good; one that has not was not broken off. */
  predicate EndsAsDue(ctx: Setting, x: Exchange, broken: bool) {
    if Live(x.down) then !broken && (x.down == AwaitHead || x.relay.headersReady)
    else
      && x.down.ending == EndingDue(ctx, x, broken)
      && (x.relay.finished || broken)
      && (broken ==> x.relay.headersReady && ctx.incremental)
  }

  lemma EndsAsDueUp(ctx: Setting, x: Exchange, act: Action, broken: bool)
    requires Inv(ctx, x) && Enabled(ctx, x, act) && !DownAction(act) && EndsAsDue(ctx, x, broken)
    ensures EndsAsDue(ctx, Step(ctx, x, act), broken)
  {
  }

  lemma EndsAsDueDown(ctx: Setting, x: Exchange, act: Action, broken: bool)
    requires Inv(ctx, x) && Enabled(ctx, x, act) && DownAction(act) && EndsAsDue(ctx, x, broken)
    ensures EndsAsDue(ctx, Step(ctx, x, act), broken || Breaks(act))
  {
    if act.CollectBody? {
      assert [] + InHand(x.down) + x.relay.pending == x.relay.pending;
    }
  }

  lemma EndsAsDueStep(ctx: Setting, x: Exchange, act: Action, broken: bool)
    requires Inv(ctx, x) && Enabled(ctx, x, act) && EndsAsDue(ctx, x, broken)
    ensures EndsAsDue(ctx, Step(ctx, x, act), broken || Breaks(act))
  {
    if DownAction(act) {
      EndsAsDueDown(ctx, x, act, broken);
    } else {
      EndsAsDueUp(ctx, x, act, broken);
    }
  }

  lemma {:induction false} EndsAsDueRun(ctx: Setting, x: Exchange, acts: seq<Action>, broken: bool)
    requires Inv(ctx, x) && Legal(ctx, x, acts) && EndsAsDue(ctx, x, broken)
    ensures EndsAsDue(ctx, Run(ctx, x, acts), broken || Broken(acts))
    decreases |acts|
  {
    if acts != [] {
      var act, rest := acts[0], acts[1..];
      assert Broken(acts) <==> Breaks(act) || Broken(rest) by {
        assert acts == [act] + rest;
      }
      InvStep(ctx, x, act);
      EndsAsDueStep(ctx, x, act, broken);
      EndsAsDueRun(ctx, Step(ctx, x, act), rest, broken || Breaks(act));
    }
  }

  /**
   Over every run: a response that has ended did so as the answer requires. In particular an incremental one is only
   broken off after the client went away or the upstream failed; with neither, it gets its terminating chunk.
   */
  lemma EndingExactly(ctx: Setting, acts: seq<Action>)
    requires Legal(ctx, BEGIN, acts)
    ensures var x := Run(ctx, BEGIN, acts);
            x.down.Ended? || x.down.Joining? ==>
              && (x.down.ending == NoAnswer <==> !x.relay.headersReady)
              && (x.relay.headersReady && !ctx.incremental ==>
                    x.down.ending == if x.relay.succeeded then Whole(ctx.body) else Truncated)
              && (x.relay.headersReady && ctx.incremental ==>
                    && (x.down.ending == Done <==> !Broken(acts) && x.relay.succeeded)
                    && (x.down.ending == Aborted <==> Broken(acts) || (x.relay.finished && !x.relay.succeeded)))
              && (x.down.ending == Done ==> x.written == ctx.body)
  {
    BeginInv(ctx);
    InvRun(ctx, BEGIN, acts);
    assert !Broken([]);
    EndsAsDueRun(ctx, BEGIN, acts, false);
  }

  /** A thread that moves on, rather than going (back) to sleep. */
  predicate Progress(ctx: Setting, x: Exchange, act: Action) {
    && Enabled(ctx, x, act)
    && (ReaderAction(act) || DownAction(act))
    && act != Sleep
    && (act == ReaderWakes ==> ReaderMayGo(x.relay, ctx.highWater))
  }

  /** A step somebody can take. */
  function NextMove(ctx: Setting, x: Exchange): Action {
    if x.readerOwes then ReaderNotify
    else if x.downOwes then DownNotify
    else if x.reader == Ready || x.reader == Unwinding then Return(false)
    else if x.reader == Parked && !x.readerAsleep && ReaderMayGo(x.relay, ctx.highWater) then ReaderWakes
    else match x.down
      case AwaitHead => SeeHead
      case HeadSeen => Choose
      case AwaitBody => CollectBody
      case Idle => EnterProvider
      case AwaitBytes => TakeBytes
      case Holding(_, _, _) => Write
      case _ => Destroy
  }

  /** No deadlock and no lost wake-up: until both threads are done, one of them can move on. */
  lemma NeverStuck(ctx: Setting, x: Exchange)
    requires Inv(ctx, x) && !Over(x)
    ensures Progress(ctx, x, NextMove(ctx, x))
  {
  }

  /** The buffered path never parks the reader. */
  lemma BufferedNeverParks(ctx: Setting, acts: seq<Action>)
    requires !ctx.incremental && Legal(ctx, BEGIN, acts)
    ensures Run(ctx, BEGIN, acts).reader != Parked
  {
    BeginInv(ctx);
    InvRun(ctx, BEGIN, acts);
  }

  lemma StillStreaming(ctx: Setting, x: Exchange, act: Action)
    requires Inv(ctx, x) && x.relay.streaming && Enabled(ctx, x, act)
    ensures var y := Step(ctx, x, act); y.relay.streaming && (y.mark == x.mark || y.mark == ctx.highWater)
  {
    assert x.down != HeadSeen;
  }

  /** Once drained to the mark, a stream's backlog never again exceeds it by more than the chunk just received. */
  lemma {:induction false} BacklogBounded(ctx: Setting, x: Exchange, acts: seq<Action>)
    requires Inv(ctx, x) && x.relay.streaming && Legal(ctx, x, acts)
    ensures var y := Run(ctx, x, acts);
            && y.relay.streaming
            && |y.relay.pending| <= y.mark + y.last
            && (y.mark == x.mark || y.mark == ctx.highWater)
            && (x.mark == ctx.highWater ==> |y.relay.pending| <= ctx.highWater + y.last)
    decreases |acts|
  {
    if acts != [] {
      InvStep(ctx, x, acts[0]);
      StillStreaming(ctx, x, acts[0]);
      BacklogBounded(ctx, Step(ctx, x, acts[0]), acts[1..]);
    }
  }

  /** Some chunk of the run has this length. */
  ghost predicate ChunkOf(acts: seq<Action>, n: nat) {
    exists act :: act in acts && act.Receive? && |act.data| == n
  }

  /** That chunk is one of the run, if it received any. */
  lemma {:induction false} LastIsChunk(ctx: Setting, x: Exchange, acts: seq<Action>)
    requires Legal(ctx, x, acts)
    ensures var y := Run(ctx, x, acts); y.last == x.last || ChunkOf(acts, y.last)
    decreases |acts|
  {
    if acts != [] {
      var next := Step(ctx, x, acts[0]);
      LastIsChunk(ctx, next, acts[1..]);
      assert acts == [acts[0]] + acts[1..];
      assert next.last == x.last || (acts[0].Receive? && |acts[0].data| == next.last);
    }
  }

  /**
   Who waits, and when: the reader after a chunk, and again when it wakes, exactly while a client that is still there
   has more than the mark pending of a stream.
   */
  lemma ReaderParksExactly(ctx: Setting, x: Exchange, act: Action)
    requires Inv(ctx, x) && Enabled(ctx, x, act) && (act.Receive? || act.ReaderWakes?)
    ensures var y := Step(ctx, x, act);
            (y.reader == Parked <==> !x.relay.cancelled && x.relay.streaming && |y.relay.pending| > ctx.highWater)
            && (y.reader == Parked <==> y.readerAsleep)
            && y.relay.pending == x.relay.pending + if act.Receive? && !x.relay.cancelled then act.data else []
  {
    assert x.relay.pending + [] == x.relay.pending;
  }

  /** The downstream side sleeps while what it waits for is not there, and goes on when it is. */
  lemma DownWaitsExactly(ctx: Setting, x: Exchange)
    requires Inv(ctx, x) && !x.downAsleep
    ensures x.down == AwaitHead ==>
              && (Enabled(ctx, x, SeeHead) <==> x.relay.headersReady || x.relay.finished)
              && (Enabled(ctx, x, Sleep) <==> !x.relay.headersReady && !x.relay.finished)
    ensures x.down == AwaitBody ==>
              && (Enabled(ctx, x, CollectBody) <==> x.relay.finished)
              && (Enabled(ctx, x, Sleep) <==> !x.relay.finished)
    ensures x.down == AwaitBytes ==>
              && (Enabled(ctx, x, TakeBytes) <==> x.relay.pending != [] || x.relay.finished || x.relay.cancelled)
              && (Enabled(ctx, x, Sleep) <==> x.relay.pending == [] && !x.relay.finished && !x.relay.cancelled)
  {
  }

  // ----- The exchange ends -----

  /** What each thread still has to do, counted in steps that get it somewhere. */
  function ReaderEffort(r: Reader): nat {
    match r
    case Ready => 4
    case Parked => 5
    case Unwinding => 2
    case Returned => 0
  }

  function DownEffort(d: Downstream): nat {
    match d
    case AwaitHead => 9
    case HeadSeen => 8
    case AwaitBody => 3
    case Idle => 7
    case AwaitBytes => 6
    case Holding(_, complete, _) => if complete then 4 else 8
    case Ended(_) => 2
    case Joining(_) => 0
  }

  /** Six for each byte still to come, four for each one pending, and what the threads have to do beside. */
  function Effort(ctx: Setting, x: Exchange): nat
    requires |x.received| <= |ctx.body|
  {
    6 * (|ctx.body| - |x.received|) + 4 * |x.relay.pending| + ReaderEffort(x.reader) + DownEffort(x.down)
    + (if x.relay.headersReady then 0 else 2) + (if x.readerOwes then 1 else 0) + if x.downOwes then 1 else 0
  }

  /** A step that gets somewhere lowers the effort; going to sleep, and waking for nothing, leave it alone. */
  lemma EffortStep(ctx: Setting, x: Exchange, act: Action)
    requires Inv(ctx, x) && Enabled(ctx, x, act)
    ensures |Step(ctx, x, act).received| <= |ctx.body|
    ensures Effort(ctx, Step(ctx, x, act)) + (if Progress(ctx, x, act) then 1 else 0) <= Effort(ctx, x)
  {
    if act.Receive? {
      EffortReceive(ctx, x, act.data);
    } else if DownAction(act) {
      EffortDown(ctx, x, act);
    }
  }

  lemma EffortReceive(ctx: Setting, x: Exchange, data: seq<Byte>)
    requires Inv(ctx, x) && Enabled(ctx, x, Receive(data))
    ensures |AfterReceive(ctx, x, data).received| <= |ctx.body|
    ensures Effort(ctx, AfterReceive(ctx, x, data)) < Effort(ctx, x)
  {
    assert |x.received + data| <= |ctx.body|;
  }

  lemma EffortDown(ctx: Setting, x: Exchange, act: Action)
    requires Inv(ctx, x) && Enabled(ctx, x, act) && DownAction(act)
    ensures Step(ctx, x, act).received == x.received
    ensures Effort(ctx, Step(ctx, x, act)) + (if act == Sleep then 0 else 1) <= Effort(ctx, x)
  {
    if act == TakeBytes {
      EffortTake(ctx, x);
    }
  }

  /** A complete chunk may be empty; one that is not holds at least a byte. */
  lemma EffortTake(ctx: Setting, x: Exchange)
    requires Inv(ctx, x) && Enabled(ctx, x, TakeBytes)
    ensures Step(ctx, x, TakeBytes).received == x.received
    ensures Effort(ctx, Step(ctx, x, TakeBytes)) < Effort(ctx, x)
  {
  }

  /** How many steps of a run get somewhere. */
  ghost function Progresses(ctx: Setting, x: Exchange, acts: seq<Action>): nat
    requires Legal(ctx, x, acts)
    decreases |acts|
  {
    if acts == [] then 0
    else (if Progress(ctx, x, acts[0]) then 1 else 0) + Progresses(ctx, Step(ctx, x, acts[0]), acts[1..])
  }

  lemma {:induction false} EffortRun(ctx: Setting, x: Exchange, acts: seq<Action>)
    requires Inv(ctx, x) && Legal(ctx, x, acts)
    ensures Progresses(ctx, x, acts) <= Effort(ctx, x)
    decreases |acts|
  {
    if acts != [] {
      EffortStep(ctx, x, acts[0]);
      InvStep(ctx, x, acts[0]);
      EffortRun(ctx, Step(ctx, x, acts[0]), acts[1..]);
    }
  }

  /**
   Under any schedule, whatever sleeps and spurious wake-ups it has, an exchange takes at most
   so many steps that get it somewhere.
   */
  lemma EveryScheduleEnds(ctx: Setting, acts: seq<Action>)
    requires Legal(ctx, BEGIN, acts)
    ensures Progresses(ctx, BEGIN, acts) <= 6 * |ctx.body| + 15
  {
    BeginInv(ctx);
    EffortRun(ctx, BEGIN, acts);
  }

  /** Taking the step somebody can take, again and again. */
  ghost function Follow(ctx: Setting, x: Exchange, n: nat): Exchange
    requires Inv(ctx, x)
    decreases n
  {
    if n == 0 || Over(x) then x
    else
      NeverStuck(ctx, x);
      InvStep(ctx, x, NextMove(ctx, x));
      Follow(ctx, Step(ctx, x, NextMove(ctx, x)), n - 1)
  }

  /** From every state of the invariant the exchange can be ended, within its effort. */
  lemma {:induction false} CanEnd(ctx: Setting, x: Exchange, n: nat)
    requires Inv(ctx, x) && n >= Effort(ctx, x)
    ensures Over(Follow(ctx, x, n))
    decreases n
  {
    if !Over(x) {
      NeverStuck(ctx, x);
      EffortStep(ctx, x, NextMove(ctx, x));
      InvStep(ctx, x, NextMove(ctx, x));
      CanEnd(ctx, Step(ctx, x, NextMove(ctx, x)), n - 1);
    }
  }

  lemma {:induction false} FollowEndsAsDue(ctx: Setting, x: Exchange, n: nat, broken: bool)
    requires Inv(ctx, x) && EndsAsDue(ctx, x, broken)
    ensures EndsAsDue(ctx, Follow(ctx, x, n), broken)
    decreases n
  {
    if n != 0 && !Over(x) {
      NextMoveEndsAsDue(ctx, x, broken);
      FollowEndsAsDue(ctx, Step(ctx, x, NextMove(ctx, x)), n - 1, broken);
    }
  }

  lemma NextMoveEndsAsDue(ctx: Setting, x: Exchange, broken: bool)
    requires Inv(ctx, x) && EndsAsDue(ctx, x, broken) && !Over(x)
    ensures Enabled(ctx, x, NextMove(ctx, x))
    ensures Inv(ctx, Step(ctx, x, NextMove(ctx, x))) && EndsAsDue(ctx, Step(ctx, x, NextMove(ctx, x)), broken)
  {
    NeverStuck(ctx, x);
    InvStep(ctx, x, NextMove(ctx, x));
    EndsAsDueStep(ctx, x, NextMove(ctx, x), broken);
  }

  /** However far a run got, it can be ended within its effort, and then ends as the answer so far requires. */
  lemma CanEndAsDue(ctx: Setting, acts: seq<Action>)
    requires Legal(ctx, BEGIN, acts)
    ensures var x := Run(ctx, BEGIN, acts);
            && Inv(ctx, x)
            && var end := Follow(ctx, x, Effort(ctx, x));
               Over(end) && end.down.ending == EndingDue(ctx, end, Broken(acts))
  {
    BeginInv(ctx);
    InvRun(ctx, BEGIN, acts);
    assert !Broken([]);
    EndsAsDueRun(ctx, BEGIN, acts, false);
    var x := Run(ctx, BEGIN, acts);
    CanEnd(ctx, x, Effort(ctx, x));
    FollowEndsAsDue(ctx, x, Effort(ctx, x), Broken(acts));
  }

  // ----- A clean end is possible -----

  ghost predicate Reaches(ctx: Setting, x: Exchange, y: Exchange) {
    exists acts :: Legal(ctx, x, acts) && !Broken(acts) && Run(ctx, x, acts) == y
  }

  lemma ReachesItself(ctx: Setting, x: Exchange)
    ensures Reaches(ctx, x, x)
  {
    assert Legal(ctx, x, []) && !Broken([]) && Run(ctx, x, []) == x;
  }

  lemma StepReaches(ctx: Setting, x: Exchange, act: Action, y: Exchange)
    requires Enabled(ctx, x, act) && !Breaks(act) && Reaches(ctx, Step(ctx, x, act), y)
    ensures Reaches(ctx, x, y)
  {
    var acts :| Legal(ctx, Step(ctx, x, act), acts) && !Broken(acts) && Run(ctx, Step(ctx, x, act), acts) == y;
    var all := [act] + acts;
    assert all[0] == act && all[1..] == acts;
    assert Legal(ctx, x, all) && Run(ctx, x, all) == y && !Broken(all);
  }

  /** The whole answer received and pending, the upstream returned, and the response not yet begun. */
  function AllReceived(ctx: Setting): Exchange {
    BEGIN.(relay := Relay(ctx.body, true, true, false, false, true), reader := Returned, received := ctx.body,
           last := |ctx.body|)
  }

  lemma AllReceivedReached(ctx: Setting, y: Exchange)
    requires Reaches(ctx, AllReceived(ctx), y)
    ensures Reaches(ctx, BEGIN, y)
  {
    var headed := BEGIN.(relay := FRESH.(headersReady := true));
    var held := headed.(relay := headed.relay.(pending := ctx.body), received := ctx.body, last := |ctx.body|);
    StepReaches(ctx, Step(ctx, held, Return(true)), ReaderNotify, y);
    StepReaches(ctx, held, Return(true), y);
    if ctx.body == [] {
      assert held == headed;
    } else {
      assert [] + ctx.body == ctx.body;
      StepReaches(ctx, headed, Receive(ctx.body), y);
    }
    StepReaches(ctx, Step(ctx, BEGIN, Head), ReaderNotify, y);
    StepReaches(ctx, BEGIN, Head, y);
  }

  /** The exchange over, with this ending and this written. */
  function CleanlyOver(ctx: Setting): Exchange {
    var x := AllReceived(ctx);
    if ctx.incremental then
      x.(relay := x.relay.(pending := [], streaming := true, cancelled := true), down := Joining(Done),
         written := ctx.body, mark := ctx.highWater)
    else
      x.(relay := x.relay.(pending := [], cancelled := true), down := Joining(Whole(ctx.body)))
  }

  lemma EndReached(ctx: Setting, x: Exchange)
    requires x.down.Ended? && !x.downOwes && !x.downAsleep && !x.readerAsleep
    ensures Reaches(ctx, x, x.(relay := OnCancel(x.relay), down := Joining(x.down.ending)))
  {
    var y := x.(relay := OnCancel(x.relay), down := Joining(x.down.ending));
    ReachesItself(ctx, y);
    StepReaches(ctx, Step(ctx, x, Destroy), DownNotify, y);
    StepReaches(ctx, x, Destroy, y);
  }

  lemma BufferedEnd(ctx: Setting)
    requires !ctx.incremental
    ensures Reaches(ctx, AllReceived(ctx), CleanlyOver(ctx))
  {
    var x, y := AllReceived(ctx), CleanlyOver(ctx);
    var seen := x.(down := HeadSeen);
    var waiting := x.(down := AwaitBody);
    EndReached(ctx, Step(ctx, waiting, CollectBody));
    StepReaches(ctx, waiting, CollectBody, y);
    StepReaches(ctx, seen, Choose, y);
    StepReaches(ctx, x, SeeHead, y);
  }

  lemma StreamedEnd(ctx: Setting)
    requires ctx.incremental
    ensures Reaches(ctx, AllReceived(ctx), CleanlyOver(ctx))
  {
    var x, y := AllReceived(ctx), CleanlyOver(ctx);
    var seen := x.(down := HeadSeen);
    ProviderEnd(ctx, Step(ctx, seen, Choose));
    StepReaches(ctx, seen, Choose, y);
    StepReaches(ctx, x, SeeHead, y);
  }

  /** One round of the content provider takes it all. */
  lemma ProviderEnd(ctx: Setting, idle: Exchange)
    requires ctx.incremental && idle == Step(ctx, AllReceived(ctx).(down := HeadSeen), Choose)
    ensures Reaches(ctx, idle, CleanlyOver(ctx))
  {
    var y, waiting := CleanlyOver(ctx), idle.(down := AwaitBytes);
    var took := Step(ctx, waiting, TakeBytes);
    LastWrite(ctx, took.(downOwes := false), y);
    StepReaches(ctx, took, DownNotify, y);
    StepReaches(ctx, waiting, TakeBytes, y);
    StepReaches(ctx, idle, EnterProvider, y);
  }

  lemma LastWrite(ctx: Setting, x: Exchange, y: Exchange)
    requires x.down == Holding(ctx.body, true, false) && x.written == [] && !x.downOwes
    requires !x.downAsleep && !x.readerAsleep
    requires y == x.(relay := OnCancel(x.relay), down := Joining(Done), written := ctx.body)
    ensures Reaches(ctx, x, y)
  {
    assert [] + ctx.body == ctx.body;
    EndReached(ctx, Step(ctx, x, Write));
    StepReaches(ctx, x, Write, y);
  }

  /**
   Every answer can be delivered: some run ends cleanly, the whole body buffered or written with its terminating
   chunk.
   */
  lemma CleanEndPossible(ctx: Setting)
    ensures exists acts :: Legal(ctx, BEGIN, acts) && !Broken(acts)
                           && var x := Run(ctx, BEGIN, acts);
                              Over(x) && if ctx.incremental then x.down.ending == Done && x.written == ctx.body
                                         else x.down.ending == Whole(ctx.body)
  {
    if ctx.incremental {
      StreamedEnd(ctx);
    } else {
      BufferedEnd(ctx);
    }
    AllReceivedReached(ctx, CleanlyOver(ctx));
  }
}
