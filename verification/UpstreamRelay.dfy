/** router/router.hpp: the record the two threads share; every method is one critical section under its mutex. */
module UpstreamRelays {
  import opened Wrappers
  import opened RelayProtocol

  /** The response line and headers of an answer. */
  datatype AnswerHead = AnswerHead(status: int, headers: seq<(string, string)>)

  const NO_HEAD := AnswerHead(0, [])

  /** The library's error code; 0 is success. */
  type Cause = int

  class UpstreamRelay {
    var pending: seq<Byte>
    var headersReady: bool
    var finished: bool
    var cancelled: bool
    var streaming: bool
    var succeeded: bool
    var head: AnswerHead
    var error: Cause

    function View(): Relay
      reads this
    {
      Relay(pending, headersReady, finished, cancelled, streaming, succeeded)
    }

    constructor ()
      ensures View() == FRESH && head == NO_HEAD && error == 0
    {
      head, error := NO_HEAD, 0;
      pending, headersReady, finished, cancelled, streaming, succeeded := [], false, false, false, false, false;
    }

    /** The response handler: publishes the head unless downstream is gone. */
    method PublishHead(answer: AnswerHead) returns (proceed: bool)
      modifies this`headersReady, this`head
      ensures View() == OnHead(old(View())) && proceed == !old(cancelled)
      ensures head == if proceed then answer else old(head)
    {
      proceed := !cancelled;
      if proceed {
        head := answer;
        headersReady := true;
      }
    }

    /** The content receiver up to its wait. */
    method Append(data: seq<Byte>) returns (open: bool)
      modifies this`pending
      ensures View() == OnReceive(old(View()), data) && open == !old(cancelled)
    {
      if cancelled {
        return false;
      }
      pending := pending + data;
      return true;
    }

    /** The content receiver after its wait: it goes on only to a client that has drained a stream to the mark. */
    method Resume(highWater: nat) returns (open: bool)
      requires ReaderMayGo(View(), highWater)
      ensures open ==> !cancelled && (streaming ==> |pending| <= highWater)
      ensures !open ==> cancelled
    {
      return !cancelled;
    }

    /** The upstream call returned; a successful one that never reached the response handler still has its head. */
    method FinishCall(ok: bool, answer: AnswerHead, cause: Cause)
      modifies this`headersReady, this`head, this`succeeded, this`error, this`finished
      ensures View() == OnReturn(old(View()), ok) && error == cause
      ensures head == if ok && !old(headersReady) then answer else old(head)
    {
      if ok && !headersReady {
        head := answer;
        headersReady := true;
      }
      succeeded := ok;
      error := cause;
      finished := true;
    }

    method SwitchToStreaming()
      modifies this`streaming
      ensures View() == OnStream(old(View()))
    {
      streaming := true;
    }

    /** The buffered path after its wait: the body, and the upstream's own verdict on it. */
    method CollectBody() returns (body: seq<Byte>, truncated: bool, cause: Cause)
      requires DownMayGo(View(), AwaitBody)
      modifies this`pending
      ensures View() == OnTake(old(View())) && body == old(pending) && truncated == !succeeded && cause == error
    {
      body, pending := pending, [];
      truncated, cause := !succeeded, error;
    }

    /** The content provider after its wait. */
    method Take() returns (chunk: seq<Byte>, complete: bool, failed: bool, cause: Cause)
      requires DownMayGo(View(), AwaitBytes)
      modifies this`pending
      ensures View() == OnTake(old(View())) && chunk == old(pending)
      ensures complete == (finished || cancelled) && failed == UpstreamFailed(old(View())) && cause == error
    {
      chunk, pending := pending, [];
      complete := finished || cancelled;
      failed, cause := (finished && !succeeded) || cancelled, error;
    }

    /** A failed write, or the end of the exchange. */
    method Cancel()
      modifies this`cancelled
      ensures View() == OnCancel(old(View()))
    {
      cancelled := true;
    }
  }

  // ----- The protocol, run on the object -----

  /** The head is the upstream's once it is published, and the error is the call's once it returned. */
  ghost predicate Filled(record: UpstreamRelay, answer: AnswerHead, cause: Cause)
    reads record
  {
    && record.head == (if record.headersReady then answer else NO_HEAD)
    && record.error == (if record.finished then cause else 0)
  }

  /** A callback of the upstream reader, up to the release of the lock or the start of a wait. */
  method EnterReader(record: UpstreamRelay, ctx: Setting, x: Exchange, act: Action, answer: AnswerHead, cause: Cause)
    returns (y: Exchange)
    requires Enabled(ctx, x, act) && record.View() == x.relay && Filled(record, answer, cause)
    requires act.Head? || act.Receive? || act.ReaderWakes? || (act.Return? && !record.finished)
    modifies record
    ensures y == Step(ctx, x, act) && record.View() == y.relay && Filled(record, answer, cause)
  {
    match act
    case Head =>
      var proceed := record.PublishHead(answer);
      y := x.(relay := record.View(), readerOwes := true, reader := if proceed then Ready else Unwinding);
    case Receive(data) =>
      var open := record.Append(data);
      if !open {
        return x.(reader := Unwinding);
      }
      y := Woken(x).(relay := record.View(), received := x.received + data, last := |data|);
      if ReaderMayGo(record.View(), ctx.highWater) {
        open := record.Resume(ctx.highWater);
        y := y.(reader := if open then Ready else Unwinding);
      } else {
        y := y.(reader := Parked, readerAsleep := true);
      }
    case ReaderWakes =>
      if ReaderMayGo(record.View(), ctx.highWater) {
        var open := record.Resume(ctx.highWater);
        y := x.(reader := if open then Ready else Unwinding);
      } else {
        y := x.(readerAsleep := true);
      }
    case Return(ok) =>
      record.FinishCall(ok, answer, cause);
      y := x.(relay := record.View(), reader := Returned, readerOwes := true);
  }

  /** A section of the downstream side, entered when its wait is over. */
  method EnterDown(record: UpstreamRelay, ctx: Setting, x: Exchange, act: Action, ghost answer: AnswerHead,
                   ghost cause: Cause)
    returns (y: Exchange)
    requires Enabled(ctx, x, act) && record.View() == x.relay && Filled(record, answer, cause)
    requires act.SeeHead? || act.Choose? || act.CollectBody? || act.TakeBytes? || act.WriteFails? || act.Destroy?
    modifies record
    ensures y == Step(ctx, x, act) && record.View() == y.relay && Filled(record, answer, cause)
  {
    match act
    case SeeHead =>
      y := x.(down := if record.headersReady then HeadSeen else Ended(NoAnswer));
    case Choose =>
      if ctx.incremental {
        record.SwitchToStreaming();
        y := x.(relay := record.View(), down := Idle, mark := Max(ctx.highWater, |record.pending|));
      } else {
        y := x.(down := AwaitBody);
      }
    case CollectBody =>
      var body, truncated, failure := record.CollectBody();
      y := x.(relay := record.View(), down := Ended(if truncated then Truncated else Whole(body)));
    case TakeBytes =>
      var chunk, complete, failed, failure := record.Take();
      y := x.(relay := record.View(), mark := ctx.highWater, downOwes := true,
              down := Holding(chunk, complete, failed));
    case WriteFails(sent) =>
      record.Cancel();
      y := x.(relay := record.View(), written := x.written + x.down.chunk[..sent], down := Ended(Aborted),
              downOwes := true);
    case Destroy =>
      record.Cancel();
      y := x.(relay := record.View(), down := Joining(x.down.ending), downOwes := true);
  }

  /** One step of the exchange: in the object where the step has a critical section, beside it where it has none. */
  method Enter(record: UpstreamRelay, ctx: Setting, x: Exchange, act: Action, answer: AnswerHead, cause: Cause)
    returns (y: Exchange)
    requires Enabled(ctx, x, act) && record.View() == x.relay && Filled(record, answer, cause)
    requires act.Return? ==> !record.finished
    modifies record
    ensures y == Step(ctx, x, act) && record.View() == y.relay && Filled(record, answer, cause)
  {
    if act.Head? || act.Receive? || act.ReaderWakes? || act.Return? {
      y := EnterReader(record, ctx, x, act, answer, cause);
    } else if act.SeeHead? || act.Choose? || act.CollectBody? || act.TakeBytes? || act.WriteFails? || act.Destroy? {
      y := EnterDown(record, ctx, x, act, answer, cause);
    } else {
      y := Step(ctx, x, act);
    }
  }

  /**
   A whole exchange over one object: it stays the record of the protocol's run, so all
   that holds of runs holds of it.
   */
  method Exchanged(ctx: Setting, acts: seq<Action>, answer: AnswerHead, cause: Cause)
    returns (record: UpstreamRelay, x: Exchange)
    requires Legal(ctx, BEGIN, acts)
    ensures fresh(record) && record.View() == x.relay && x == Run(ctx, BEGIN, acts)
    ensures Inv(ctx, x) && Filled(record, answer, cause)
  {
    record := new UpstreamRelay();
    x := BEGIN;
    BeginInv(ctx);
    for i := 0 to |acts|
      invariant fresh(record) && record.View() == x.relay && Filled(record, answer, cause) && Inv(ctx, x)
      invariant Legal(ctx, x, acts[i..]) && Run(ctx, x, acts[i..]) == Run(ctx, BEGIN, acts)
    {
      assert acts[i..][0] == acts[i] && acts[i..][1..] == acts[i + 1..];
      InvStep(ctx, x, acts[i]);
      x := Enter(record, ctx, x, acts[i], answer, cause);
    }
    assert acts[|acts|..] == [];
  }
}
