/**
 * The host metrics scrape manager: emitters run in parallel on two levels,
 * one failure fails the scrape, and delayed processing spaces out the scrapes
 * that go through.
 */
module Scraping {
  import opened Outcomes
  import FanOut

  /** What one metric emitter delivers; None when it fails. */
  type Emission<M> = Option<seq<M>>

  datatype ScopeMetrics<M> = ScopeMetrics(scope: string, metrics: seq<M>)

  datatype Scope<M> = Scope(name: string, emissions: seq<Emission<M>>)

  // ----- Totals that do not depend on the order -----

  lemma Without<T>(s: seq<T>, i: nat)
    requires i < |s|
    ensures multiset(s) == multiset(s[..i] + s[i + 1..]) + multiset{s[i]}
  {
    assert s == s[..i] + [s[i]] + s[i + 1..];
  }

  ghost function Total<T, M>(size: T -> multiset<M>, items: seq<T>): multiset<M> {
    if items == [] then multiset{} else size(items[0]) + Total(size, items[1..])
  }

  lemma {:induction false} TotalAround<T, M>(size: T -> multiset<M>, a: seq<T>, x: T, b: seq<T>)
    ensures Total(size, a + [x] + b) == size(x) + Total(size, a + b)
  {
    if a == [] {
      assert a + [x] + b == [x] + b && a + b == b;
    } else {
      assert (a + [x] + b)[1..] == a[1..] + [x] + b && (a + b)[1..] == a[1..] + b;
      TotalAround(size, a[1..], x, b);
    }
  }

  lemma TotalFrom<T, M>(size: T -> multiset<M>, s: seq<T>, i: nat)
    requires i < |s|
    ensures Total(size, s[i..]) == size(s[i]) + Total(size, s[i + 1..])
  {
    assert s[i..][1..] == s[i + 1..];
  }

  /** A total does not depend on the order. */
  lemma {:induction false} TotalUnordered<T, M>(size: T -> multiset<M>, a: seq<T>, b: seq<T>)
    requires multiset(a) == multiset(b)
    ensures Total(size, a) == Total(size, b)
    decreases |a|
  {
    if a == [] {
      assert |b| == |multiset(b)| == 0;
    } else {
      var i, rest := Matching(a, b);
      TotalUnordered(size, a[1..], rest);
      assert b == b[..i] + [b[i]] + b[i + 1..];
      TotalAround(size, b[..i], b[i], b[i + 1..]);
    }
  }

  lemma Cancel<T>(a: multiset<T>, b: multiset<T>, x: T)
    requires a + multiset{x} == b + multiset{x}
    ensures a == b
  {
    assert a == (a + multiset{x}) - multiset{x};
    assert b == (b + multiset{x}) - multiset{x};
  }

  /** The first item of one order can be taken out of another. */
  lemma Matching<T>(a: seq<T>, b: seq<T>) returns (i: nat, rest: seq<T>)
    requires a != [] && multiset(a) == multiset(b)
    ensures i < |b| && b[i] == a[0] && rest == b[..i] + b[i + 1..]
    ensures multiset(a[1..]) == multiset(rest)
  {
    assert a[0] in multiset(b);
    i :| 0 <= i < |b| && b[i] == a[0];
    rest := b[..i] + b[i + 1..];
    assert a[..0] + a[1..] == a[1..];
    Without(a, 0);
    Without(b, i);
    Cancel(multiset(a[1..]), multiset(rest), a[0]);
  }

  // ----- One scope -----

  /** Metrics as they reach the consumer: each under its scope's name. */
  ghost function Tagged<M>(scope: string, metrics: seq<M>): multiset<(string, M)> {
    multiset(seq(|metrics|, i requires 0 <= i < |metrics| => (scope, metrics[i])))
  }

  lemma TaggedConcat<M>(scope: string, a: seq<M>, b: seq<M>)
    ensures Tagged(scope, a + b) == Tagged(scope, a) + Tagged(scope, b)
  {
    var x := seq(|a|, i requires 0 <= i < |a| => (scope, a[i]));
    var y := seq(|b|, i requires 0 <= i < |b| => (scope, b[i]));
    assert x + y == seq(|a + b|, i requires 0 <= i < |a + b| => (scope, (a + b)[i]));
  }

  ghost function EmissionSize<M>(scope: string): Emission<M> -> multiset<(string, M)> {
    (e: Emission<M>) => if e.Some? then Tagged(scope, e.value) else multiset{}
  }

  ghost function ScopeSize<M>(s: ScopeMetrics<M>): multiset<(string, M)> {
    Tagged(s.scope, s.metrics)
  }

  ghost function OutputSize<M>(output: Option<seq<ScopeMetrics<M>>>): multiset<(string, M)> {
    if output.Some? then Total(ScopeSize, output.value) else multiset{}
  }

  predicate ScopeWorks<M>(s: Scope<M>) {
    s.emissions != [] && forall i :: 0 <= i < |s.emissions| ==> s.emissions[i].Some?
  }

  /** All metrics the emitters of a scope deliver. */
  ghost function Delivered<M>(s: Scope<M>): multiset<(string, M)> {
    Total(EmissionSize(s.name), s.emissions)
  }

  /** Collect results until the channel is drained; any error wins. */
  method ProcessEmittedResults<M>(received: seq<Emission<M>>) returns (slices: Option<seq<seq<M>>>)
    ensures slices.Some? <==> forall i :: 0 <= i < |received| ==> received[i].Some?
    ensures slices.Some? ==>
              && |slices.value| == |received|
              && forall i :: 0 <= i < |received| ==> received[i] == Some(slices.value[i])
  {
    var failed := false;
    var data: seq<seq<M>> := [];
    for i := 0 to |received|
      invariant failed <==> exists j :: 0 <= j < i && received[j].None?
      invariant !failed ==> |data| == i && forall j :: 0 <= j < i ==> received[j] == Some(data[j])
    {
      if received[i].None? {
        failed := true;
      } else {
        data := data + [received[i].value];
      }
    }
    slices := if failed then None else Some(data);
  }

  /** One scope metric with everything, or none at all when there are no metrics. */
  method AssembleScope<M(==)>(name: string, slices: seq<seq<M>>, ghost received: seq<Emission<M>>)
    returns (output: seq<ScopeMetrics<M>>)
    requires |slices| == |received| && forall i :: 0 <= i < |slices| ==> received[i] == Some(slices[i])
    ensures Total(ScopeSize, output) == Total(EmissionSize(name), received)
    ensures |output| <= 1 && forall i :: 0 <= i < |output| ==> output[i].scope == name && output[i].metrics != []
  {
    var metrics: seq<M> := [];
    for i := 0 to |slices|
      invariant Tagged(name, metrics) + Total(EmissionSize(name), received[i..]) == Total(EmissionSize(name), received)
    {
      TotalFrom(EmissionSize(name), received, i);
      TaggedConcat(name, metrics, slices[i]);
      if slices[i] != [] {
        metrics := metrics + slices[i];
      } else {
        assert metrics + slices[i] == metrics;
      }
    }
    if metrics == [] {
      return [];
    }
    output := [ScopeMetrics(name, metrics)];
    assert output[1..] == [];
  }

  /** Emit of a scope: it fails without emitters or with a failed one, and
      otherwise carries exactly what its emitters delivered. */
  method EmitScope<M(==)>(s: Scope<M>) returns (output: Option<seq<ScopeMetrics<M>>>)
    ensures output.Some? <==> ScopeWorks(s)
    ensures output.Some? ==> Total(ScopeSize, output.value) == Delivered(s)
  {
    if s.emissions == [] {
      return None;
    }
    var received := FanOut.Gather(s.emissions);
    SameMembers(received, s.emissions);
    var slices := ProcessEmittedResults(received);
    if slices.None? {
      return None;
    }
    var assembled := AssembleScope(s.name, slices.value, received);
    TotalUnordered(EmissionSize(s.name), received, s.emissions);
    output := Some(assembled);
  }

  lemma SameMembers<T>(a: seq<T>, b: seq<T>)
    requires multiset(a) == multiset(b)
    ensures |a| == |b|
    ensures forall i :: 0 <= i < |a| ==> a[i] in b
    ensures forall i :: 0 <= i < |b| ==> b[i] in a
  {
    assert |multiset(a)| == |a| && |multiset(b)| == |b|;
    assert forall i :: 0 <= i < |a| ==> a[i] in multiset(b);
    assert forall i :: 0 <= i < |b| ==> b[i] in multiset(a);
  }

  // ----- All scopes -----

  predicate AllWork<M>(scopes: seq<Scope<M>>) {
    scopes != [] && forall i :: 0 <= i < |scopes| ==> ScopeWorks(scopes[i])
  }

  lemma {:induction false} OutputsDeliver<M>(scopes: seq<Scope<M>>, outputs: seq<Option<seq<ScopeMetrics<M>>>>)
    requires |outputs| == |scopes|
    requires forall i :: 0 <= i < |scopes| ==> outputs[i].Some? && OutputSize(outputs[i]) == Delivered(scopes[i])
    ensures Total(OutputSize, outputs) == Total(Delivered, scopes)
  {
    if scopes != [] {
      assert forall i :: 0 <= i < |scopes| - 1 ==> scopes[1..][i] == scopes[i + 1] && outputs[1..][i] == outputs[i + 1];
      OutputsDeliver(scopes[1..], outputs[1..]);
    }
  }

  lemma {:induction false} TotalConcat<T, M>(size: T -> multiset<M>, a: seq<T>, b: seq<T>)
    ensures Total(size, a + b) == Total(size, a) + Total(size, b)
  {
    if a == [] {
      assert a + b == b;
    } else {
      assert (a + b)[1..] == a[1..] + b;
      TotalConcat(size, a[1..], b);
    }
  }

  lemma OutputMoves<M>(all: seq<ScopeMetrics<M>>, received: seq<Option<seq<ScopeMetrics<M>>>>, i: nat)
    requires i < |received|
    ensures var moved := if received[i].None? then all else all + received[i].value;
      Total(ScopeSize, moved) + Total(OutputSize, received[i + 1..]) ==
      Total(ScopeSize, all) + Total(OutputSize, received[i..])
  {
    TotalFrom(OutputSize, received, i);
    if received[i].Some? {
      TotalConcat(ScopeSize, all, received[i].value);
    }
  }

  /** Drain the results; any error wins, and otherwise their slices are moved
      into one resource metric. */
  method AssembleMetrics<M(==)>(received: seq<Option<seq<ScopeMetrics<M>>>>)
    returns (metrics: Option<seq<ScopeMetrics<M>>>)
    ensures metrics.Some? <==> received != [] && forall i :: 0 <= i < |received| ==> received[i].Some?
    ensures metrics.Some? ==> Total(ScopeSize, metrics.value) == Total(OutputSize, received)
  {
    var slices := ProcessEmittedResults(received);
    if slices.None? || received == [] {
      return None;
    }
    var all: seq<ScopeMetrics<M>> := [];
    for i := 0 to |received|
      invariant Total(ScopeSize, all) + Total(OutputSize, received[i..]) == Total(OutputSize, received)
    {
      OutputMoves(all, received, i);
      all := all + slices.value[i];
    }
    metrics := Some(all);
  }

  /** The result of every scope, in the order of the scopes. */
  method EmitScopes<M(==)>(scopes: seq<Scope<M>>) returns (outputs: seq<Option<seq<ScopeMetrics<M>>>>)
    ensures |outputs| == |scopes|
    ensures forall i :: 0 <= i < |scopes| ==> (outputs[i].Some? <==> ScopeWorks(scopes[i]))
    ensures forall i :: 0 <= i < |scopes| && outputs[i].Some? ==> OutputSize(outputs[i]) == Delivered(scopes[i])
  {
    outputs := [];
    for i := 0 to |scopes|
      invariant |outputs| == i
      invariant forall j :: 0 <= j < i ==> (outputs[j].Some? <==> ScopeWorks(scopes[j]))
      invariant forall j :: 0 <= j < i && outputs[j].Some? ==> OutputSize(outputs[j]) == Delivered(scopes[j])
    {
      var output := EmitScope(scopes[i]);
      outputs := outputs + [output];
    }
  }

  /** Emit on every scope in parallel, evaluate, assemble. */
  method EmitAll<M(==, !new)>(scopes: seq<Scope<M>>) returns (metrics: Option<seq<ScopeMetrics<M>>>)
    ensures metrics.Some? <==> AllWork(scopes)
    ensures metrics.Some? ==> Total(ScopeSize, metrics.value) == Total(Delivered, scopes)
    ensures metrics.Some? ==> forall name, m :: Holds(metrics.value, name, m) <==> Emits(scopes, name, m)
  {
    var outputs := EmitScopes(scopes);
    var received := FanOut.Gather(outputs);
    SameMembers(received, outputs);
    metrics := AssembleMetrics(received);
    if metrics.Some? {
      OutputsDeliver(scopes, outputs);
      TotalUnordered(OutputSize, received, outputs);
      forall name, m ensures Holds(metrics.value, name, m) <==> Emits(scopes, name, m) {
        TotalsHoldSame(scopes, metrics.value, name, m);
      }
    }
  }

  // ----- The same told from emitters and metrics -----

  /** A scope of the name has an emitter that delivers the metric. */
  ghost predicate Emits<M>(scopes: seq<Scope<M>>, name: string, m: M) {
    exists s, e :: s in scopes && s.name == name && e in s.emissions && e.Some? && m in e.value
  }

  ghost predicate Holds<M>(metrics: seq<ScopeMetrics<M>>, name: string, m: M) {
    exists s :: s in metrics && s.scope == name && m in s.metrics
  }

  lemma {:induction false} InTotal<T, M>(size: T -> multiset<M>, items: seq<T>, m: M)
    ensures m in Total(size, items) <==> exists x :: x in items && m in size(x)
  {
    if items != [] {
      InTotal(size, items[1..], m);
      assert items == [items[0]] + items[1..];
    }
  }

  lemma InTagged<M>(scope: string, metrics: seq<M>, name: string, m: M)
    ensures (name, m) in Tagged(scope, metrics) <==> name == scope && m in metrics
  {
    var tagged := seq(|metrics|, i requires 0 <= i < |metrics| => (scope, metrics[i]));
    assert (name, m) in multiset(tagged) <==> (name, m) in tagged;
    if name == scope && m in metrics {
      var i :| 0 <= i < |metrics| && metrics[i] == m;
      assert tagged[i] == (name, m);
    }
  }

  lemma InDelivered<M>(s: Scope<M>, name: string, m: M)
    ensures (name, m) in Delivered(s) <==> name == s.name && exists e :: e in s.emissions && e.Some? && m in e.value
  {
    InTotal(EmissionSize(s.name), s.emissions, (name, m));
    forall e | e in s.emissions
      ensures (name, m) in EmissionSize(s.name)(e) <==> e.Some? && name == s.name && m in e.value
    {
      if e.Some? {
        InTagged(s.name, e.value, name, m);
      }
    }
  }

  /** Equal totals hold the same metrics under the same names. */
  lemma TotalsHoldSame<M>(scopes: seq<Scope<M>>, metrics: seq<ScopeMetrics<M>>, name: string, m: M)
    requires Total(ScopeSize, metrics) == Total(Delivered, scopes)
    ensures Holds(metrics, name, m) <==> Emits(scopes, name, m)
  {
    InTotal(ScopeSize, metrics, (name, m));
    InTotal(Delivered, scopes, (name, m));
    forall s | s in metrics ensures (name, m) in ScopeSize(s) <==> s.scope == name && m in s.metrics {
      InTagged(s.scope, s.metrics, name, m);
    }
    forall s | s in scopes
      ensures (name, m) in Delivered(s) <==> s.name == name && exists e :: e in s.emissions && e.Some? && m in e.value
    {
      InDelivered(s, name, m);
    }
  }

  // ----- Delayed processing -----

  /** One call of Scrape: the clock it reads, whether its context is closed,
      and what every emitter would deliver. */
  datatype Attempt<M> = Attempt(now: int, closed: bool, scopes: seq<Scope<M>>)

  datatype Outcome<M> = Scraped(metrics: seq<ScopeMetrics<M>>) | Skipped | Failed

  /** Without a delay configuration every moment is ready. */
  predicate Ready(delay: Option<int>, last: int, now: int) {
    delay.Some? ==> last + delay.value <= now
  }

  predicate GoesThrough<M>(delay: Option<int>, last: int, a: Attempt<M>) {
    !a.closed && Ready(delay, last, a.now) && AllWork(a.scopes)
  }

  /** What an outcome must be, for an attempt made with the given last
      processed time. */
  ghost predicate Explains<M>(delay: Option<int>, last: int, a: Attempt<M>, o: Outcome<M>) {
    && (o.Scraped? <==> GoesThrough(delay, last, a))
    && (o.Skipped? <==> !a.closed && !Ready(delay, last, a.now))
    && (o.Scraped? ==> Total(ScopeSize, o.metrics) == Total(Delivered, a.scopes))
  }

  /** The scrape manager. Init turns the delay on when it is configured, and
      may still fail to schedule a runtime. */
  class Manager<M(==, !new)> {
    const delay: Option<int>
    const scheduled: bool
    var interval: int
    var last: int

    /** The delay in force: zero before a start, the configured one after it. */
    function Pace(): Option<int> reads this {
      if delay.None? then None else Some(interval)
    }

    constructor (delay: Option<int>, scheduled: bool)
      ensures this.delay == delay && this.scheduled == scheduled && interval == 0 && last == 0
    {
      this.delay, this.scheduled := delay, scheduled;
      interval, last := 0, 0;
    }

    /** Every scope initialises in parallel; the delay counts from here. */
    method Start(now: int, closed: bool, inits: seq<bool>) returns (ok: bool)
      modifies this
      ensures ok <==> !closed && scheduled && forall i :: 0 <= i < |inits| ==> inits[i]
      ensures ok ==> Pace() == delay && (delay.Some? ==> last == now)
      ensures !ok || delay.None? ==> last == old(last) && interval == old(interval)
    {
      if closed || !scheduled {
        return false;
      }
      var received := FanOut.Gather(inits);
      SameMembers(received, inits);
      ok := true;
      for i := 0 to |received|
        invariant ok <==> forall j :: 0 <= j < i ==> received[j]
        invariant unchanged(this)
      {
        ok := ok && received[i];
      }
      if ok && delay.Some? {
        interval, last := delay.value, now;
      }
    }

    method IsReady(now: int) returns (ready: bool)
      ensures ready <==> Ready(Pace(), last, now)
    {
      ready := delay.None? || !(now < last + interval);
    }

    /** Only a scrape that goes through moves the last processed time. */
    method Scrape(a: Attempt<M>) returns (o: Outcome<M>)
      modifies this
      ensures Pace() == old(Pace()) && interval == old(interval)
      ensures scheduled ==> Explains(old(Pace()), old(last), a, o)
      ensures !scheduled ==> o == Failed
      ensures scheduled && !a.closed ==> (o.Skipped? <==> delay.Some? && a.now < old(last) + interval)
      ensures scheduled && !a.closed && !o.Skipped? ==>
        (o.Failed? <==> a.scopes == [] || exists s :: s in a.scopes && (s.emissions == [] || None in s.emissions))
      ensures o.Scraped? ==> forall name, m :: Holds(o.metrics, name, m) <==> Emits(a.scopes, name, m)
      ensures last == if o.Scraped? && delay.Some? then a.now else old(last)
    {
      if a.closed || !scheduled {
        return Failed;
      }
      var ready := IsReady(a.now);
      if !ready {
        return Skipped;
      }
      var metrics := EmitAll(a.scopes);
      if metrics.None? {
        return Failed;
      }
      if delay.Some? {
        last := a.now;
      }
      o := Scraped(metrics.value);
    }
  }

  // ----- Whole sessions -----

  /** Clock readings of the attempts that brought metrics. */
  function ScrapeTimes<M>(attempts: seq<Attempt<M>>, outcomes: seq<Outcome<M>>): seq<int>
    requires |attempts| == |outcomes|
  {
    if attempts == [] then [] else
      var n := |attempts| - 1;
      ScrapeTimes(attempts[..n], outcomes[..n]) + if outcomes[n].Scraped? then [attempts[n].now] else []
  }

  /** The last processed time after a prefix of a session. */
  function LastTime(started: int, times: seq<int>): int {
    if times == [] then started else times[|times| - 1]
  }

  /** Successive times, counted from the start, lie an interval apart. */
  predicate Spaced(interval: int, started: int, times: seq<int>) {
    forall i :: 0 <= i < |times| ==> times[i] >= LastTime(started, times[..i]) + interval
  }

  /** The n-th scrape is at least n intervals after the start, and any two lie
      as many intervals apart as there are steps between them. */
  lemma {:induction false} SpacedSpans(interval: int, started: int, times: seq<int>, i: nat, j: nat)
    requires Spaced(interval, started, times)
    requires i <= j < |times|
    ensures times[j] - times[i] >= (j - i) * interval
    ensures times[j] >= started + (j + 1) * interval
    decreases j
  {
    if j > 0 {
      assert times[j] >= LastTime(started, times[..j]) + interval;
      SpacedSpans(interval, started, times, if i == j then i - 1 else i, j - 1);
      if i < j {
        SpacedSpans(interval, started, times, i, j - 1);
        assert (j - i) * interval == (j - 1 - i) * interval + interval;
      }
      assert (j + 1) * interval == j * interval + interval;
    }
  }

  /** Every outcome of a session is explained by the last scrape before it. */
  ghost predicate Explained<M>(delay: Option<int>, started: int, attempts: seq<Attempt<M>>, outcomes: seq<Outcome<M>>)
    requires |attempts| == |outcomes|
  {
    attempts == [] ||
    var n := |attempts| - 1;
    && Explained(delay, started, attempts[..n], outcomes[..n])
    && Explains(delay, LastTime(started, ScrapeTimes(attempts[..n], outcomes[..n])), attempts[n], outcomes[n])
  }

  lemma SpacedExtend(interval: int, started: int, times: seq<int>, now: int)
    requires Spaced(interval, started, times)
    requires now >= LastTime(started, times) + interval
    ensures Spaced(interval, started, times + [now])
  {
    var longer := times + [now];
    forall i | 0 <= i < |longer| ensures longer[i] >= LastTime(started, longer[..i]) + interval {
      assert longer[..i] == times[..i];
      assert times[..|times|] == times;
    }
  }

  /** With delayed processing on, whatever the clock reads and whatever fails,
      the scrapes of a session are an interval apart and the first comes an
      interval after the start. */
  lemma {:induction false} SessionSpaced<M>(
      interval: int, started: int, attempts: seq<Attempt<M>>, outcomes: seq<Outcome<M>>)
    requires |attempts| == |outcomes| && Explained(Some(interval), started, attempts, outcomes)
    ensures Spaced(interval, started, ScrapeTimes(attempts, outcomes))
  {
    if attempts != [] {
      var n := |attempts| - 1;
      SessionSpaced(interval, started, attempts[..n], outcomes[..n]);
      var times := ScrapeTimes(attempts[..n], outcomes[..n]);
      if outcomes[n].Scraped? {
        SpacedExtend(interval, started, times, attempts[n].now);
      } else {
        assert times + [] == times;
      }
    }
  }

  /** Scrapes that went through span as many intervals as there are gaps. */
  lemma SessionSpans<M>(interval: int, started: int, attempts: seq<Attempt<M>>, outcomes: seq<Outcome<M>>)
    requires |attempts| == |outcomes| && Explained(Some(interval), started, attempts, outcomes)
    ensures var times := ScrapeTimes(attempts, outcomes);
            times != [] ==> times[0] >= started + interval && times[|times| - 1] - times[0] >= (|times| - 1) * interval
  {
    SessionSpaced(interval, started, attempts, outcomes);
    var times := ScrapeTimes(attempts, outcomes);
    if times != [] {
      SpacedSpans(interval, started, times, 0, |times| - 1);
      SpacedSpans(interval, started, times, 0, 0);
    }
  }

  lemma ExplainedOneMore<M>(
      delay: Option<int>, started: int, attempts: seq<Attempt<M>>, outcomes: seq<Outcome<M>>, o: Outcome<M>)
    requires var k := |outcomes|; k < |attempts| && Explained(delay, started, attempts[..k], outcomes)
    requires var k := |outcomes|;
      Explains(delay, LastTime(started, ScrapeTimes(attempts[..k], outcomes)), attempts[k], o)
    ensures var k := |outcomes|;
      && Explained(delay, started, attempts[..k + 1], outcomes + [o])
      && ScrapeTimes(attempts[..k + 1], outcomes + [o]) ==
         ScrapeTimes(attempts[..k], outcomes) + (if o.Scraped? then [attempts[k].now] else [])
      && LastTime(started, ScrapeTimes(attempts[..k + 1], outcomes + [o])) ==
         if o.Scraped? then attempts[k].now else LastTime(started, ScrapeTimes(attempts[..k], outcomes))
  {
    var k := |outcomes|;
    assert attempts[..k + 1][..k] == attempts[..k] && (outcomes + [o])[..k] == outcomes;
  }

  /** Any attempts after a successful start, with any clock and any failures. */
  method Session<M(==, !new)>(delay: Option<int>, started: int, attempts: seq<Attempt<M>>)
    returns (outcomes: seq<Outcome<M>>)
    ensures |outcomes| == |attempts| && Explained(delay, started, attempts, outcomes)
  {
    var manager := new Manager<M>(delay, true);
    var ok := manager.Start(started, false, []);
    outcomes := [];
    for k := 0 to |attempts|
      invariant |outcomes| == k && manager.Pace() == delay
      invariant delay.Some? ==> manager.last == LastTime(started, ScrapeTimes(attempts[..k], outcomes))
      invariant Explained(delay, started, attempts[..k], outcomes)
    {
      ghost var last := LastTime(started, ScrapeTimes(attempts[..k], outcomes));
      var o := manager.Scrape(attempts[k]);
      assert Explains(delay, last, attempts[k], o);
      ExplainedOneMore(delay, started, attempts, outcomes, o);
      outcomes := outcomes + [o];
    }
    assert attempts[..|attempts|] == attempts;
  }
}
