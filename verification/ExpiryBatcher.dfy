/**
 * The storage manager's batching loop: expired relationships arriving within
 * one timer window are handed on together.
 */
module ExpiryBatcher {
  import opened Outcomes
  import opened Sequences

  /** What a select of the loop can wake up for. */
  datatype Wakeup<+E> = Expired(event: E) | TimerFired | Cancelled

  function Pending<E>(batch: Option<seq<E>>): seq<E> {
    match batch
    case None => []
    case Some(events) => events
  }

  /** The wakeups before the loop is cancelled. */
  function Alive<E>(schedule: seq<Wakeup<E>>): seq<Wakeup<E>> {
    if schedule == [] || schedule[0].Cancelled? then [] else [schedule[0]] + Alive(schedule[1..])
  }

  function Received<E>(schedule: seq<Wakeup<E>>): seq<E> {
    if schedule == [] then []
    else
      var n := |schedule| - 1;
      if schedule[n].Expired? then Received(schedule[..n]) + [schedule[n].event] else Received(schedule[..n])
  }

  /** The expiries received since the timer last fired. */
  function Window<E>(schedule: seq<Wakeup<E>>): seq<E> {
    if schedule == [] || schedule[|schedule| - 1].TimerFired? then []
    else
      var n := |schedule| - 1;
      if schedule[n].Expired? then Window(schedule[..n]) + [schedule[n].event] else Window(schedule[..n])
  }

  /** One batch per firing that ends a non-empty window. */
  function Batches<E>(schedule: seq<Wakeup<E>>): seq<seq<E>> {
    if schedule == [] then []
    else
      var n := |schedule| - 1;
      var before := Window(schedule[..n]);
      if schedule[n].TimerFired? && before != [] then Batches(schedule[..n]) + [before] else Batches(schedule[..n])
  }

  /** Batches and open window together are the expiries received, in order. */
  lemma {:induction false} BatchesLoseNothing<E>(schedule: seq<Wakeup<E>>)
    ensures Concat(Batches(schedule)) + Window(schedule) == Received(schedule)
    ensures forall b :: b in Batches(schedule) ==> b != []
  {
    if schedule != [] {
      var before := schedule[..|schedule| - 1];
      BatchesLoseNothing(before);
      ConcatOneMore(Batches(before), Window(before));
    }
  }

  /** `batch` holds the expiries received from the start or a firing up to the next firing. */
  ghost predicate IsWindow<E>(schedule: seq<Wakeup<E>>, batch: seq<E>, from: nat, to: nat) {
    && from <= to < |schedule| && schedule[to].TimerFired?
    && (from == 0 || schedule[from - 1].TimerFired?)
    && (forall i :: from <= i < to ==> !schedule[i].TimerFired?)
    && batch == Received(schedule[from..to])
  }

  /** The open window starts at the beginning or after the last firing. */
  lemma {:induction false} WindowIs<E>(schedule: seq<Wakeup<E>>) returns (from: nat)
    ensures from <= |schedule| && (from == 0 || schedule[from - 1].TimerFired?)
    ensures forall i :: from <= i < |schedule| ==> !schedule[i].TimerFired?
    ensures Window(schedule) == Received(schedule[from..])
  {
    from := |schedule|;
    if schedule != [] && !schedule[|schedule| - 1].TimerFired? {
      var n := |schedule| - 1;
      from := WindowIs(schedule[..n]);
      assert schedule[from..][..n - from] == schedule[..n][from..];
      assert schedule[from..][n - from] == schedule[n];
    }
  }

  /** Each batch is one window, and a firing leaves nothing pending. */
  lemma {:induction false} BatchesAreWindows<E>(schedule: seq<Wakeup<E>>)
    ensures forall b :: b in Batches(schedule) ==> exists from: nat, to: nat :: IsWindow(schedule, b, from, to)
    ensures schedule != [] && schedule[|schedule| - 1].TimerFired? ==> Concat(Batches(schedule)) == Received(schedule)
  {
    BatchesLoseNothing(schedule);
    if schedule != [] {
      var n := |schedule| - 1;
      BatchesAreWindows(schedule[..n]);
      forall b | b in Batches(schedule) ensures exists from: nat, to: nat :: IsWindow(schedule, b, from, to) {
        if b in Batches(schedule[..n]) {
          var from: nat, to: nat :| IsWindow(schedule[..n], b, from, to);
          assert schedule[..n][from..to] == schedule[from..to];
          assert IsWindow(schedule, b, from, to);
        } else {
          var from := WindowIs(schedule[..n]);
          assert schedule[..n][from..] == schedule[from..n];
          assert IsWindow(schedule, b, from, n);
        }
      }
    }
  }

  lemma {:induction false} AlivePrefix<E>(schedule: seq<Wakeup<E>>, i: nat)
    requires i <= |schedule|
    requires forall j :: 0 <= j < i ==> !schedule[j].Cancelled?
    requires i == |schedule| || schedule[i].Cancelled?
    ensures Alive(schedule) == schedule[..i]
  {
    if i > 0 {
      AlivePrefix(schedule[1..], i - 1);
      assert schedule[..i] == [schedule[0]] + schedule[1..][..i - 1];
    }
  }

  /** receiveExpired. A nil timer channel is never ready, so a firing without
      an armed timer cannot wake the loop. The pending batch at cancellation
      is what is left behind unsent. */
  method ReceiveExpired<E>(schedule: seq<Wakeup<E>>) returns (sent: seq<seq<E>>, batch: Option<seq<E>>, armed: bool)
    ensures Concat(sent) + Pending(batch) == Received(Alive(schedule))
    ensures sent == Batches(Alive(schedule)) && Pending(batch) == Window(Alive(schedule))
    ensures armed <==> batch.Some?
    ensures batch.Some? ==> batch.value != []
    ensures forall b :: b in sent ==> b != [] && exists from: nat, to: nat :: IsWindow(Alive(schedule), b, from, to)
    ensures var alive := Alive(schedule); alive != [] && alive[|alive| - 1].TimerFired? ==> batch == None
  {
    sent, batch, armed := [], None, false;
    var i := 0;
    while i < |schedule|
      invariant 0 <= i <= |schedule|
      invariant forall j :: 0 <= j < i ==> !schedule[j].Cancelled?
      invariant sent == Batches(schedule[..i]) && Pending(batch) == Window(schedule[..i])
      invariant armed <==> batch.Some?
      invariant batch.Some? ==> batch.value != []
    {
      assert schedule[..i + 1][..i] == schedule[..i];
      match schedule[i] {
        case Cancelled =>
          AlivePrefix(schedule, i);
          BatchesLoseNothing(schedule[..i]);
          BatchesAreWindows(schedule[..i]);
          return;
        case Expired(event) =>
          if batch.None? {
            batch := Some([]);
            armed := true;
          }
          batch := Some(batch.value + [event]);
        case TimerFired =>
          if armed && |batch.value| > 0 {
            sent := sent + [batch.value];
            batch := None;
            armed := false;
          }
      }
      i := i + 1;
    }
    AlivePrefix(schedule, i);
    BatchesLoseNothing(schedule[..i]);
    BatchesAreWindows(schedule[..i]);
  }
}
