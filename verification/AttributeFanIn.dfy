/**
 * The select loop that merges what several sources send: a source that closes
 * has its channel set to nil and is counted off a WaitGroup, a supervising
 * goroutine closes the termination channel once the count is zero.
 */
module AttributeFanIn {
  import opened Outcomes
  import opened Int64
  import opened Sequences

  /** A source's channel as the loop holds it: nil, or with messages still to
      come before it is closed. */
  datatype Channel<M> = Nil | Open(coming: seq<M>)

  /** The next thing any of the goroutines can do. */
  datatype Step = Receive(source: nat) | SeeClosed(source: nat) | Supervise | Leave

  function ApplyAll<A, M>(apply: (A, M) -> A, acc: A, messages: seq<M>): A
    decreases |messages|
  {
    if messages == [] then acc else ApplyAll(apply, apply(acc, messages[0]), messages[1..])
  }

  /** Everything still to come, source after source. */
  function Coming<M>(channels: seq<Channel<M>>): seq<M> {
    if channels == [] then []
    else (if channels[0].Open? then channels[0].coming else []) + Coming(channels[1..])
  }

  function OpenCount<M>(channels: seq<Channel<M>>): nat {
    if channels == [] then 0 else (if channels[0].Open? then 1 else 0) + OpenCount(channels[1..])
  }

  function OpenAll<M>(sources: seq<seq<M>>): seq<Channel<M>> {
    if sources == [] then [] else [Open(sources[0])] + OpenAll(sources[1..])
  }

  /** The loop with its supervising goroutine. */
  datatype Loop<A, M> = Loop(result: A, channels: seq<Channel<M>>, waiting: int, terminated: bool, running: bool)

  function Start<A, M>(sources: seq<seq<M>>, initial: A): Loop<A, M> {
    Loop(initial, OpenAll(sources), |sources|, false, true)
  }

  /** The steps that some goroutine could take now. */
  function Enabled<A, M>(s: Loop<A, M>): set<Step> {
    (set i | 0 <= i < |s.channels| && s.running && s.channels[i].Open? && s.channels[i].coming != [] :: Receive(i)) +
    (set i | 0 <= i < |s.channels| && s.running && s.channels[i].Open? && s.channels[i].coming == [] :: SeeClosed(i)) +
    (if s.waiting == 0 && !s.terminated then {Supervise} else {}) +
    (if s.running && s.terminated then {Leave} else {})
  }

  function Next<A, M>(apply: (A, M) -> A, s: Loop<A, M>, step: Step): Loop<A, M>
    requires step in Enabled(s)
  {
    match step
    case Receive(i) =>
      var coming := s.channels[i].coming;
      s.(result := apply(s.result, coming[0]), channels := s.channels[i := Open(coming[1..])])
    case SeeClosed(i) => s.(channels := s.channels[i := Nil], waiting := s.waiting - 1)
    case Supervise => s.(terminated := true)
    case Leave => s.(running := false)
  }

  // ----- Messages of different sources may be applied in any order -----

  ghost predicate Commute<A(!new), M>(apply: (A, M) -> A, m: M, m': M) {
    forall acc :: apply(apply(acc, m), m') == apply(apply(acc, m'), m)
  }

  ghost predicate Independent<A(!new), M(!new)>(apply: (A, M) -> A, channels: seq<Channel<M>>) {
    forall i, j, m, m' | 0 <= i < j < |channels| && channels[i].Open? && channels[j].Open? ::
      m in channels[i].coming && m' in channels[j].coming ==> Commute(apply, m, m')
  }

  lemma {:induction false} ApplyConcat<A, M>(apply: (A, M) -> A, acc: A, a: seq<M>, b: seq<M>)
    ensures ApplyAll(apply, acc, a + b) == ApplyAll(apply, ApplyAll(apply, acc, a), b)
    decreases |a|
  {
    if a == [] {
      assert a + b == b;
    } else {
      assert (a + b)[1..] == a[1..] + b;
      ApplyConcat(apply, apply(acc, a[0]), a[1..], b);
    }
  }

  /** A message that commutes with a whole run may be applied before it. */
  lemma {:induction false} ApplyEarlier<A(!new), M>(apply: (A, M) -> A, acc: A, run: seq<M>, m: M)
    requires forall x :: x in run ==> Commute(apply, x, m)
    ensures ApplyAll(apply, apply(acc, m), run) == apply(ApplyAll(apply, acc, run), m)
    decreases |run|
  {
    if run != [] {
      assert Commute(apply, run[0], m);
      ApplyEarlier(apply, apply(acc, run[0]), run[1..], m);
    }
  }

  /** Receiving from any open source leaves the final outcome as it was. */
  lemma {:induction false} ReceiveKeepsOutcome<A(!new), M(!new)>(
      apply: (A, M) -> A, acc: A, channels: seq<Channel<M>>, i: nat)
    requires i < |channels| && channels[i].Open? && channels[i].coming != []
    requires Independent(apply, channels)
    ensures var m, rest := channels[i].coming[0], channels[i := Open(channels[i].coming[1..])];
      && ApplyAll(apply, apply(acc, m), Coming(rest)) == ApplyAll(apply, acc, Coming(channels))
      && Independent(apply, rest)
      && |Coming(rest)| == |Coming(channels)| - 1
      && OpenCount(rest) == OpenCount(channels)
    decreases |channels|
  {
    var m, rest := channels[i].coming[0], channels[i := Open(channels[i].coming[1..])];
    if i == 0 {
      assert rest[1..] == channels[1..];
      assert Coming(channels) == [m] + Coming(rest);
    } else {
      var head := if channels[0].Open? then channels[0].coming else [];
      var tail := channels[1..];
      assert forall j :: 0 <= j < |tail| ==> tail[j] == channels[j + 1];
      assert rest[1..] == tail[i - 1 := Open(tail[i - 1].coming[1..])];
      forall x | x in head ensures Commute(apply, x, m) {
        assert m in channels[i].coming;
      }
      ApplyEarlier(apply, acc, head, m);
      var acc' := ApplyAll(apply, acc, head);
      ReceiveKeepsOutcome(apply, acc', tail, i - 1);
      ApplyConcat(apply, acc, head, Coming(tail));
      ApplyConcat(apply, apply(acc, m), head, Coming(rest[1..]));
    }
  }

  lemma {:induction false} CloseKeepsOutcome<M>(channels: seq<Channel<M>>, i: nat)
    requires i < |channels| && channels[i] == Open([])
    ensures Coming(channels[i := Nil]) == Coming(channels)
    ensures OpenCount(channels[i := Nil]) == OpenCount(channels) - 1
    decreases |channels|
  {
    if i == 0 {
      assert channels[i := Nil][1..] == channels[1..];
    } else {
      assert channels[i := Nil][1..] == channels[1..][i - 1 := Nil];
      CloseKeepsOutcome(channels[1..], i - 1);
    }
  }

  lemma {:induction false} OpenCountZero<M>(channels: seq<Channel<M>>)
    ensures OpenCount(channels) == 0 <==> forall i :: 0 <= i < |channels| ==> channels[i].Nil?
    ensures OpenCount(channels) == 0 ==> Coming(channels) == []
  {
    if channels != [] {
      OpenCountZero(channels[1..]);
      assert forall i :: 0 < i < |channels| ==> channels[i] == channels[1..][i - 1];
    }
  }

  lemma {:induction false} OpenAllFacts<M>(sources: seq<seq<M>>)
    ensures var channels := OpenAll(sources);
      && |channels| == |sources| == OpenCount(channels)
      && Coming(channels) == Concat(sources)
      && forall i :: 0 <= i < |sources| ==> channels[i] == Open(sources[i])
  {
    if sources != [] {
      OpenAllFacts(sources[1..]);
    }
  }

  // ----- Every reachable state -----

  /** The count is the number of channels not yet nil, the loop is left only
      when that is zero, and what is merged so far together with what is still
      to come makes up the outcome of reading the sources in turn. */
  ghost predicate Inv<A(!new), M(!new)>(apply: (A, M) -> A, sources: seq<seq<M>>, initial: A, s: Loop<A, M>) {
    && |s.channels| == |sources|
    && s.waiting == OpenCount(s.channels)
    && (s.terminated ==> s.waiting == 0)
    && (!s.running ==> s.terminated)
    && Independent(apply, s.channels)
    && ApplyAll(apply, s.result, Coming(s.channels)) == ApplyAll(apply, initial, Concat(sources))
  }

  /** Steps still to be taken at most. */
  function Work<A, M>(s: Loop<A, M>): nat {
    |Coming(s.channels)| + OpenCount(s.channels) + (if s.terminated then 0 else 1) + (if s.running then 1 else 0)
  }

  lemma StepKeepsInv<A(!new), M(!new)>(apply: (A, M) -> A, sources: seq<seq<M>>, initial: A, s: Loop<A, M>, step: Step)
    requires Inv(apply, sources, initial, s) && step in Enabled(s)
    ensures Inv(apply, sources, initial, Next(apply, s, step))
    ensures Work(Next(apply, s, step)) < Work(s)
  {
    match step
    case Receive(i) => ReceiveKeepsOutcome(apply, s.result, s.channels, i);
    case SeeClosed(i) => CloseKeepsOutcome(s.channels, i);
    case Supervise =>
    case Leave =>
  }

  predicate IsRun<A, M>(apply: (A, M) -> A, s: Loop<A, M>, steps: seq<Step>)
    decreases |steps|
  {
    steps == [] || (steps[0] in Enabled(s) && IsRun(apply, Next(apply, s, steps[0]), steps[1..]))
  }

  function Run<A, M>(apply: (A, M) -> A, s: Loop<A, M>, steps: seq<Step>): Loop<A, M>
    requires IsRun(apply, s, steps)
    decreases |steps|
  {
    if steps == [] then s else Run(apply, Next(apply, s, steps[0]), steps[1..])
  }

  lemma {:induction false} RunKeepsInv<A(!new), M(!new)>(
      apply: (A, M) -> A, sources: seq<seq<M>>, initial: A, s: Loop<A, M>, steps: seq<Step>)
    requires Inv(apply, sources, initial, s) && IsRun(apply, s, steps)
    ensures Inv(apply, sources, initial, Run(apply, s, steps))
    ensures |steps| + Work(Run(apply, s, steps)) <= Work(s)
    decreases |steps|
  {
    if steps != [] {
      StepKeepsInv(apply, sources, initial, s, steps[0]);
      RunKeepsInv(apply, sources, initial, Next(apply, s, steps[0]), steps[1..]);
    }
  }

  /** Every schedule of every length: the count is the number of channels not
      nil and so never negative, a running loop can go on, the schedule has an
      end, and a loop that was left has every source closed and drained and
      the same result as any other schedule. */
  lemma EverySchedule<A(!new), M(!new)>(apply: (A, M) -> A, sources: seq<seq<M>>, initial: A, steps: seq<Step>)
    requires Independent(apply, OpenAll(sources)) && IsRun(apply, Start(sources, initial), steps)
    ensures var s := Run(apply, Start(sources, initial), steps);
      && s.waiting == OpenCount(s.channels)
      && |steps| <= |Concat(sources)| + |sources| + 2
      && (s.running ==> Enabled(s) != {})
      && (!s.running ==>
            && (forall i :: 0 <= i < |s.channels| ==> s.channels[i].Nil?)
            && s.result == ApplyAll(apply, initial, Concat(sources)))
  {
    OpenAllFacts(sources);
    RunKeepsInv(apply, sources, initial, Start(sources, initial), steps);
    var s := Run(apply, Start(sources, initial), steps);
    SomeStepEnabled(s);
    OpenCountZero(s.channels);
  }

  /** No deadlock: a goroutine can always move while the loop runs. */
  lemma SomeStepEnabled<A, M>(s: Loop<A, M>)
    requires s.waiting == OpenCount(s.channels)
    ensures s.running ==> Enabled(s) != {}
  {
    OpenCountZero(s.channels);
    if s.waiting > 0 && s.running {
      var i :| 0 <= i < |s.channels| && s.channels[i].Open?;
      if s.channels[i].coming == [] {
        assert SeeClosed(i) in Enabled(s);
      } else {
        assert Receive(i) in Enabled(s);
      }
    } else if s.terminated && s.running {
      assert Leave in Enabled(s);
    } else if s.running {
      assert Supervise in Enabled(s);
    }
  }

  /** The select loop, taking whichever step comes: it ends with every source
      closed and drained and with the result of reading them in turn. */
  method FanIn<A(!new), M(==, !new)>(sources: seq<seq<M>>, apply: (A, M) -> A, initial: A) returns (result: A)
    requires Independent(apply, OpenAll(sources))
    ensures result == ApplyAll(apply, initial, Concat(sources))
  {
    OpenAllFacts(sources);
    var s := Start(sources, initial);
    while s.running
      invariant Inv(apply, sources, initial, s)
      decreases Work(s)
    {
      SomeStepEnabled(s);
      var step :| step in Enabled(s);
      StepKeepsInv(apply, sources, initial, s, step);
      s := Next(apply, s, step);
    }
    OpenCountZero(s.channels);
    result := s.result;
  }

  // ----- Host details and uptime -----

  type Attributes = map<string, string>

  const DOMAIN_KEYS := {
    "hostdetails.domain", "hostdetails.domain.fqdn", "hostdetails.domain.role", "hostdetails.domain.workgroup"}
  const MODEL_KEYS := {
    "hostdetails.model.manufacturer", "hostdetails.model.serialnumber", "hostdetails.model.name"}
  const TIMEZONE_KEYS := {
    "hostdetails.timezone.bias", "hostdetails.timezone.caption", "hostdetails.timezone.standardname"}

  predicate Within(messages: seq<Attributes>, keys: set<string>) {
    forall m :: m in messages ==> m.Keys <= keys
  }

  function Merge(result: Attributes, increment: Attributes): Attributes {
    result + increment
  }

  lemma DisjointMergesCommute(a: Attributes, b: Attributes)
    requires a.Keys !! b.Keys
    ensures Commute(Merge, a, b)
  {
    forall acc: Attributes ensures Merge(Merge(acc, a), b) == Merge(Merge(acc, b), a) {
    }
  }

  /** Message `i` is the last of its source to carry the key. */
  ghost predicate LastCarrier(messages: seq<Attributes>, i: nat, k: string) {
    i < |messages| && k in messages[i] && forall j :: i < j < |messages| ==> k !in messages[j]
  }

  ghost predicate Carried(messages: seq<Attributes>, k: string) {
    exists m :: m in messages && k in m
  }

  /** Each key that a source sent has the value that source sent last. */
  ghost predicate KeepsLast(attributes: Attributes, messages: seq<Attributes>) {
    forall i: nat, k :: LastCarrier(messages, i, k) ==> k in attributes && attributes[k] == messages[i][k]
  }

  lemma CarriedFirst(messages: seq<Attributes>)
    requires messages != []
    ensures forall k :: Carried(messages, k) <==> k in messages[0] || Carried(messages[1..], k)
  {
    assert messages == [messages[0]] + messages[1..];
  }

  lemma {:induction false} MergedExactly(before: Attributes, messages: seq<Attributes>)
    ensures var after := ApplyAll(Merge, before, messages);
      && KeepsLast(after, messages)
      && (forall k :: k in after <==> k in before || Carried(messages, k))
      && (forall k :: k in before && !Carried(messages, k) ==> k in after && after[k] == before[k])
    decreases |messages|
  {
    if messages != [] {
      var first, rest := messages[0], messages[1..];
      MergedExactly(Merge(before, first), rest);
      var after := ApplyAll(Merge, before, messages);
      CarriedFirst(messages);
      forall i: nat, k | LastCarrier(messages, i, k) ensures k in after && after[k] == messages[i][k] {
        if i > 0 {
          assert LastCarrier(rest, i - 1, k);
        } else {
          assert forall j :: 0 <= j < |rest| ==> rest[j] == messages[j + 1];
          assert !Carried(rest, k);
        }
      }
    }
  }

  /** The last carriers of one source are those of all messages, if no other
      source sends its keys. */
  lemma KeepsLastOfPart(attributes: Attributes, a: seq<Attributes>, part: seq<Attributes>, b: seq<Attributes>)
    requires KeepsLast(attributes, a + part + b)
    requires forall m, m' :: m in part && m' in b ==> m.Keys !! m'.Keys
    ensures KeepsLast(attributes, part)
  {
    var all := a + part + b;
    forall i: nat, k | LastCarrier(part, i, k) ensures k in attributes && attributes[k] == part[i][k] {
      forall j | |a| + i < j < |all| ensures k !in all[j] {
        if j < |a| + |part| {
          assert all[j] == part[j - |a|];
        } else {
          assert all[j] == b[j - |a| - |part|] && part[i].Keys !! all[j].Keys;
        }
      }
      assert LastCarrier(all, |a| + i, k) && all[|a| + i] == part[i];
    }
  }

  lemma KeepsLastOfThree(attributes: Attributes, a: seq<Attributes>, b: seq<Attributes>, c: seq<Attributes>)
    requires KeepsLast(attributes, a + b + c)
    requires forall m, m' :: m in a && m' in b + c ==> m.Keys !! m'.Keys
    requires forall m, m' :: m in b && m' in c ==> m.Keys !! m'.Keys
    ensures KeepsLast(attributes, a) && KeepsLast(attributes, b) && KeepsLast(attributes, c)
  {
    assert a + b + c == [] + a + (b + c) == (a + b) + c + [];
    KeepsLastOfPart(attributes, [], a, b + c);
    KeepsLastOfPart(attributes, a, b, c);
    KeepsLastOfPart(attributes, a + b, c, []);
  }

  /** generateInternal of the host details: the three generators write
      disjoint keys, so every schedule yields the same attributes. */
  method GenerateHostDetails(domain: seq<Attributes>, model: seq<Attributes>, timezone: seq<Attributes>)
    returns (attributes: Attributes)
    requires Within(domain, DOMAIN_KEYS) && Within(model, MODEL_KEYS) && Within(timezone, TIMEZONE_KEYS)
    ensures attributes == ApplyAll(Merge, map[], domain + model + timezone)
    ensures forall k :: k in attributes <==> Carried(domain, k) || Carried(model, k) || Carried(timezone, k)
    ensures KeepsLast(attributes, domain) && KeepsLast(attributes, model) && KeepsLast(attributes, timezone)
  {
    var sources := [domain, model, timezone];
    OpenAllFacts(sources);
    HostKeysDisjoint();
    forall i, j, m, m' | 0 <= i < j < 3 && m in sources[i] && m' in sources[j] ensures Commute(Merge, m, m') {
      DisjointMergesCommute(m, m');
    }
    attributes := FanIn(sources, Merge, map[]);
    ConcatThree(domain, model, timezone);
    MergedExactly(map[], domain + model + timezone);
    KeepsLastOfThree(attributes, domain, model, timezone);
  }

  lemma HostKeysDisjoint()
    ensures DOMAIN_KEYS !! MODEL_KEYS !! TIMEZONE_KEYS
  {
    assert forall k :: k in DOMAIN_KEYS ==> k[12] == 'd';
    assert forall k :: k in MODEL_KEYS ==> k[12] == 'm';
    assert forall k :: k in TIMEZONE_KEYS ==> k[12] == 't';
  }

  datatype UptimeError = Unavailable | OverflowsInt64

  /** What the uptime emitter receives: attributes, or a reading that may be an error. */
  datatype Message = Attrs(attributes: Attributes) | Reading(seconds: Option<nat>)

  datatype Uptime = Uptime(seconds: nat, attributes: Attributes, error: Option<UptimeError>)

  function CalculateUptime(reading: Option<nat>): (nat, Option<UptimeError>) {
    match reading
    case None => (0, Some(Unavailable))
    case Some(n) => if n > MAX_INT64 then (0, Some(OverflowsInt64)) else (n, None)
  }

  function Collect(data: Uptime, m: Message): Uptime {
    match m
    case Attrs(a) => data.(attributes := data.attributes + a)
    case Reading(r) => data.(seconds := CalculateUptime(r).0, error := CalculateUptime(r).1)
  }

  function AsMessages(attributes: seq<Attributes>): seq<Message> {
    seq(|attributes|, i requires 0 <= i < |attributes| => Attrs(attributes[i]))
  }

  function AsReadings(readings: seq<Option<nat>>): seq<Message> {
    seq(|readings|, i requires 0 <= i < |readings| => Reading(readings[i]))
  }

  lemma {:induction false} CollectAttributes(data: Uptime, attributes: seq<Attributes>)
    ensures ApplyAll(Collect, data, AsMessages(attributes)) ==
            data.(attributes := ApplyAll(Merge, data.attributes, attributes))
    decreases |attributes|
  {
    if attributes != [] {
      assert AsMessages(attributes)[1..] == AsMessages(attributes[1..]);
      CollectAttributes(Collect(data, Attrs(attributes[0])), attributes[1..]);
    }
  }

  lemma {:induction false} CollectReadings(data: Uptime, readings: seq<Option<nat>>)
    requires readings != []
    ensures var last := CalculateUptime(readings[|readings| - 1]);
      ApplyAll(Collect, data, AsReadings(readings)) == data.(seconds := last.0, error := last.1)
    decreases |readings|
  {
    assert AsReadings(readings)[1..] == AsReadings(readings[1..]);
    if |readings| > 1 {
      CollectReadings(Collect(data, Reading(readings[0])), readings[1..]);
    }
  }

  /** getMetricData: the last reading decides the uptime, and a reading that
      does not fit 64 bits is an error, whatever the schedule. */
  method GetMetricData(host: seq<Attributes>, os: seq<Attributes>, readings: seq<Option<nat>>) returns (data: Uptime)
    requires forall a, b :: a in host && b in os ==> a.Keys !! b.Keys
    ensures data.attributes == ApplyAll(Merge, map[], host + os)
    ensures forall k :: k in data.attributes <==> Carried(host, k) || Carried(os, k)
    ensures KeepsLast(data.attributes, host) && KeepsLast(data.attributes, os)
    ensures readings == [] ==> data.seconds == 0 && data.error == None
    ensures readings != [] ==>
      match readings[|readings| - 1]
      case None => data.seconds == 0 && data.error == Some(Unavailable)
      case Some(n) =>
        if n > 9_223_372_036_854_775_807 then data.seconds == 0 && data.error == Some(OverflowsInt64)
        else data.seconds == n && data.error == None
  {
    var empty := Uptime(0, map[], None);
    var sources := [AsMessages(host), AsMessages(os), AsReadings(readings)];
    OpenAllFacts(sources);
    forall i, j, m, m' | 0 <= i < j < 3 && m in sources[i] && m' in sources[j] ensures Commute(Collect, m, m') {
      if j == 1 {
        assert m.Attrs? && m.attributes in host && m'.Attrs? && m'.attributes in os;
        forall acc: Uptime ensures Collect(Collect(acc, m), m') == Collect(Collect(acc, m'), m) {
          DisjointMergesCommute(m.attributes, m'.attributes);
          assert Merge(Merge(acc.attributes, m.attributes), m'.attributes) ==
                 Merge(Merge(acc.attributes, m'.attributes), m.attributes);
        }
      }
    }
    data := FanIn(sources, Collect, empty);
    ConcatThree(AsMessages(host), AsMessages(os), AsReadings(readings));
    assert AsMessages(host) + AsMessages(os) == AsMessages(host + os);
    ApplyConcat(Collect, empty, AsMessages(host + os), AsReadings(readings));
    CollectAttributes(empty, host + os);
    MergedExactly(map[], host + os);
    assert host + os == host + os + [];
    KeepsLastOfThree(ApplyAll(Merge, map[], host + os), host, os, []);
    if readings != [] {
      CollectReadings(ApplyAll(Collect, empty, AsMessages(host + os)), readings);
    }
  }
}
