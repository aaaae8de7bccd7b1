/**
 * Running several workers at once and collecting what they deliver: each
 * worker sends one result on a buffered channel and counts itself off a
 * WaitGroup; the caller waits for the count, closes the channel, and only
 * then reads what is in it.
 */
module FanOut {
  /** A worker has yet to send, has sent, or is counted off. */
  datatype Worker = Working | Sent | Done

  datatype Caller = Waiting | Draining | Finished

  datatype State<T> = State(workers: seq<Worker>, buffer: seq<T>, waiting: int, caller: Caller, received: seq<T>)

  datatype Step = Send(worker: nat) | CountOff(worker: nat) | Close | Take | Finish

  function Start<T>(results: seq<T>): State<T> {
    State(seq(|results|, _ => Working), [], |results|, Waiting, [])
  }

  /** The steps that can be taken now; a full channel blocks its senders. */
  function Enabled<T>(capacity: nat, s: State<T>): set<Step> {
    (set i | 0 <= i < |s.workers| && s.workers[i].Working? && |s.buffer| < capacity :: Send(i)) +
    (set i | 0 <= i < |s.workers| && s.workers[i].Sent? :: CountOff(i)) +
    (if s.caller.Waiting? && s.waiting == 0 then {Close} else {}) +
    (if s.caller.Draining? then {if s.buffer == [] then Finish else Take} else {})
  }

  function Next<T>(results: seq<T>, capacity: nat, s: State<T>, step: Step): State<T>
    requires |s.workers| == |results| && step in Enabled(capacity, s)
  {
    match step
    case Send(i) => s.(workers := s.workers[i := Sent], buffer := s.buffer + [results[i]])
    case CountOff(i) => s.(workers := s.workers[i := Done], waiting := s.waiting - 1)
    case Close => s.(caller := Draining)
    case Take => s.(buffer := s.buffer[1..], received := s.received + [s.buffer[0]])
    case Finish => s.(caller := Finished)
  }

  // ----- Counting -----

  /** What the workers that have yet to send will send. */
  function Unsent<T>(results: seq<T>, workers: seq<Worker>): seq<T>
    requires |results| == |workers|
  {
    if results == [] then []
    else (if workers[0].Working? then [results[0]] else []) + Unsent(results[1..], workers[1..])
  }

  function NotDone(workers: seq<Worker>): nat {
    if workers == [] then 0 else (if workers[0].Done? then 0 else 1) + NotDone(workers[1..])
  }

  lemma {:induction false} SendMoves<T>(results: seq<T>, workers: seq<Worker>, i: nat)
    requires |results| == |workers| && i < |workers| && workers[i].Working?
    ensures var rest := Unsent(results, workers[i := Sent]);
      && multiset(Unsent(results, workers)) == multiset(rest) + multiset{results[i]}
      && |Unsent(results, workers)| == |rest| + 1
    ensures NotDone(workers[i := Sent]) == NotDone(workers)
    decreases |results|
  {
    if i == 0 {
      assert workers[i := Sent][1..] == workers[1..];
    } else {
      assert workers[i := Sent][1..] == workers[1..][i - 1 := Sent];
      SendMoves(results[1..], workers[1..], i - 1);
    }
  }

  lemma {:induction false} CountOffMoves<T>(results: seq<T>, workers: seq<Worker>, i: nat)
    requires |results| == |workers| && i < |workers| && workers[i].Sent?
    ensures Unsent(results, workers[i := Done]) == Unsent(results, workers)
    ensures NotDone(workers) == NotDone(workers[i := Done]) + 1
    decreases |results|
  {
    if i == 0 {
      assert workers[i := Done][1..] == workers[1..];
    } else {
      assert workers[i := Done][1..] == workers[1..][i - 1 := Done];
      CountOffMoves(results[1..], workers[1..], i - 1);
    }
  }

  lemma {:induction false} CountsFacts<T>(results: seq<T>, workers: seq<Worker>)
    requires |results| == |workers|
    ensures |Unsent(results, workers)| <= NotDone(workers) <= |workers|
    ensures (forall i :: 0 <= i < |workers| ==> !workers[i].Working?) ==> Unsent(results, workers) == []
    ensures NotDone(workers) == 0 <==> forall i :: 0 <= i < |workers| ==> workers[i].Done?
    ensures (forall i :: 0 <= i < |workers| ==> workers[i].Working?) ==>
              Unsent(results, workers) == results && NotDone(workers) == |workers|
  {
    if results != [] {
      CountsFacts(results[1..], workers[1..]);
      assert forall i :: 0 < i < |workers| ==> workers[i] == workers[1..][i - 1];
      assert results == [results[0]] + results[1..];
    }
  }

  // ----- Every reachable state -----

  /** Every result is in one place: not sent yet, in the channel, or read. */
  ghost predicate Inv<T>(results: seq<T>, capacity: nat, s: State<T>) {
    && |s.workers| == |results|
    && s.waiting == NotDone(s.workers)
    && |s.buffer| <= capacity
    && multiset(Unsent(results, s.workers)) + multiset(s.buffer) + multiset(s.received) == multiset(results)
    && |Unsent(results, s.workers)| + |s.buffer| + |s.received| == |results|
    && (s.caller.Waiting? ==> s.received == [])
    && (!s.caller.Waiting? ==> s.waiting == 0 && |results| <= capacity)
    && (s.caller.Finished? ==> s.buffer == [])
  }

  /** Steps still to be taken at most. */
  function Work<T>(results: seq<T>, s: State<T>): nat
    requires |s.workers| == |results|
  {
    2 * |Unsent(results, s.workers)| + NotDone(s.workers) + |s.buffer| +
    (match s.caller case Waiting => 2 case Draining => 1 case Finished => 0)
  }

  lemma StartInv<T>(results: seq<T>, capacity: nat)
    ensures Inv(results, capacity, Start(results))
    ensures Work(results, Start(results)) == 3 * |results| + 2
  {
    CountsFacts(results, Start(results).workers);
  }

  lemma SendKeepsInv<T>(results: seq<T>, capacity: nat, s: State<T>, i: nat)
    requires Inv(results, capacity, s) && Send(i) in Enabled(capacity, s)
    ensures var t := Next(results, capacity, s, Send(i));
      Inv(results, capacity, t) && Work(results, t) < Work(results, s)
  {
    SendMoves(results, s.workers, i);
    CountsFacts(results, s.workers);
  }

  lemma TakeKeepsInv<T>(results: seq<T>, capacity: nat, s: State<T>)
    requires Inv(results, capacity, s) && Take in Enabled(capacity, s)
    ensures var t := Next(results, capacity, s, Take);
      Inv(results, capacity, t) && Work(results, t) < Work(results, s)
  {
    assert s.buffer == [s.buffer[0]] + s.buffer[1..];
    var t := Next(results, capacity, s, Take);
    assert multiset(t.buffer) + multiset(t.received) == multiset(s.buffer) + multiset(s.received);
  }

  lemma CountOffKeepsInv<T>(results: seq<T>, capacity: nat, s: State<T>, i: nat)
    requires Inv(results, capacity, s) && CountOff(i) in Enabled(capacity, s)
    ensures var t := Next(results, capacity, s, CountOff(i));
      Inv(results, capacity, t) && Work(results, t) < Work(results, s)
  {
    CountOffMoves(results, s.workers, i);
    CountsFacts(results, s.workers);
  }

  lemma StepKeepsInv<T>(results: seq<T>, capacity: nat, s: State<T>, step: Step)
    requires Inv(results, capacity, s) && step in Enabled(capacity, s)
    ensures Inv(results, capacity, Next(results, capacity, s, step))
    ensures Work(results, Next(results, capacity, s, step)) < Work(results, s)
  {
    match step
    case Send(i) => SendKeepsInv(results, capacity, s, i);
    case CountOff(i) => CountOffKeepsInv(results, capacity, s, i);
    case Close => CountsFacts(results, s.workers);
    case Take => TakeKeepsInv(results, capacity, s);
    case Finish =>
  }

  /** A state is stuck when nothing moves although the caller has not finished. */
  predicate Stuck<T>(capacity: nat, s: State<T>) {
    !s.caller.Finished? && Enabled(capacity, s) == {}
  }

  lemma RoomMeansProgress<T>(results: seq<T>, capacity: nat, s: State<T>)
    requires Inv(results, capacity, s) && |results| <= capacity
    ensures !Stuck(capacity, s)
  {
    CountsFacts(results, s.workers);
    if s.caller.Waiting? {
      if s.waiting == 0 {
        assert Close in Enabled(capacity, s);
      } else {
        var i :| 0 <= i < |s.workers| && !s.workers[i].Done?;
        if s.workers[i].Sent? {
          assert CountOff(i) in Enabled(capacity, s);
        } else {
          assert Unsent(results, s.workers) != [] by { SendMoves(results, s.workers, i); }
          assert Send(i) in Enabled(capacity, s);
        }
      }
    } else if s.caller.Draining? {
      assert (if s.buffer == [] then Finish else Take) in Enabled(capacity, s);
    }
  }

  predicate IsRun<T>(results: seq<T>, capacity: nat, s: State<T>, steps: seq<Step>)
    requires |s.workers| == |results|
    decreases |steps|
  {
    steps == [] ||
    (steps[0] in Enabled(capacity, s) && IsRun(results, capacity, Next(results, capacity, s, steps[0]), steps[1..]))
  }

  function Run<T>(results: seq<T>, capacity: nat, s: State<T>, steps: seq<Step>): State<T>
    requires |s.workers| == |results| && IsRun(results, capacity, s, steps)
    decreases |steps|
  {
    if steps == [] then s else Run(results, capacity, Next(results, capacity, s, steps[0]), steps[1..])
  }

  lemma {:induction false} RunKeepsInv<T>(results: seq<T>, capacity: nat, s: State<T>, steps: seq<Step>)
    requires Inv(results, capacity, s) && IsRun(results, capacity, s, steps)
    ensures Inv(results, capacity, Run(results, capacity, s, steps))
    ensures |steps| + Work(results, Run(results, capacity, s, steps)) <= Work(results, s)
    decreases |steps|
  {
    if steps != [] {
      StepKeepsInv(results, capacity, s, steps[0]);
      RunKeepsInv(results, capacity, Next(results, capacity, s, steps[0]), steps[1..]);
    }
  }

  /** Every interleaving: it is bounded, the count equals the workers not yet
      counted off, and a caller that has finished has read every result once. */
  lemma EveryInterleaving<T>(results: seq<T>, capacity: nat, steps: seq<Step>)
    requires IsRun(results, capacity, Start(results), steps)
    ensures var s := Run(results, capacity, Start(results), steps);
      && |steps| <= 3 * |results| + 2
      && s.waiting == NotDone(s.workers)
      && (s.caller.Finished? ==> |results| <= capacity && multiset(s.received) == multiset(results))
  {
    StartInv(results, capacity);
    RunKeepsInv(results, capacity, Start(results), steps);
    CountsFacts(results, Run(results, capacity, Start(results), steps).workers);
  }

  /** Go on until nothing moves any more. */
  lemma {:induction false} RunToTheEnd<T>(results: seq<T>, capacity: nat, s: State<T>) returns (steps: seq<Step>)
    requires Inv(results, capacity, s)
    ensures IsRun(results, capacity, s, steps)
    ensures Enabled(capacity, Run(results, capacity, s, steps)) == {}
    decreases Work(results, s)
  {
    steps := [];
    if Enabled(capacity, s) != {} {
      var step :| step in Enabled(capacity, s);
      StepKeepsInv(results, capacity, s, step);
      var rest := RunToTheEnd(results, capacity, Next(results, capacity, s, step));
      steps := [step] + rest;
      assert steps[1..] == rest;
    }
  }

  ghost predicate NeverStuck<T>(results: seq<T>, capacity: nat) {
    forall steps :: IsRun(results, capacity, Start(results), steps) ==>
      !Stuck(capacity, Run(results, capacity, Start(results), steps))
  }

  /** No interleaving gets stuck exactly when the channel has room for every
      result: the caller reads nothing before all workers are counted off. */
  lemma NeverStuckIff<T>(results: seq<T>, capacity: nat)
    ensures NeverStuck(results, capacity) <==> |results| <= capacity
  {
    StartInv(results, capacity);
    if |results| <= capacity {
      forall steps | IsRun(results, capacity, Start(results), steps)
        ensures !Stuck(capacity, Run(results, capacity, Start(results), steps))
      {
        RunKeepsInv(results, capacity, Start(results), steps);
        RoomMeansProgress(results, capacity, Run(results, capacity, Start(results), steps));
      }
    } else {
      var steps := RunToTheEnd(results, capacity, Start(results));
      RunKeepsInv(results, capacity, Start(results), steps);
    }
  }

  /** Workers on a channel as wide as their number, under any scheduling. */
  method Gather<T(==)>(results: seq<T>) returns (received: seq<T>)
    ensures multiset(received) == multiset(results)
  {
    var s := Start(results);
    StartInv(results, |results|);
    while !s.caller.Finished?
      invariant Inv(results, |results|, s)
      decreases Work(results, s)
    {
      RoomMeansProgress(results, |results|, s);
      var step :| step in Enabled(|results|, s);
      StepKeepsInv(results, |results|, s, step);
      s := Next(results, |results|, s, step);
    }
    CountsFacts(results, s.workers);
    received := s.received;
  }
}
