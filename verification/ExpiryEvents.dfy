/**
 * When expiry events are sent. A relationship first leaves its cache; then a
 * callback looks up its ends, and its event waits for an unbuffered channel.
 * Updates and deletions may come in between, so what holds of leaving the
 * cache need not hold of the event.
 */
module ExpiryEvents {
  import opened Outcomes
  import opened Expiration
  import opened KeyBuilder

  // ----- Places in a history -----

  predicate Eviction(h: Happening) {
    h.Collected?
  }

  predicate Event(h: Happening) {
    h.Sent?
  }

  predicate Loss(h: Happening) {
    h.Lost?
  }

  predicate EffectiveDeletion(h: Happening) {
    h.DeleteCalled? && h.effective
  }

  /** Where in the history something of the given kind happens. */
  function Places(history: seq<Happening>, kind: Happening -> bool): seq<nat> {
    if history == [] then []
    else
      var n := |history| - 1;
      Places(history[..n], kind) + if kind(history[n]) then [n] else []
  }

  /** `at` are all such places, each once and in order. */
  ghost predicate AllPlaces(history: seq<Happening>, kind: Happening -> bool, at: seq<nat>) {
    && (forall i, j :: 0 <= i < j < |at| ==> at[i] < at[j])
    && (forall i :: 0 <= i < |at| ==> at[i] < |history| && kind(history[at[i]]))
    && (forall n :: 0 <= n < |history| && kind(history[n]) ==> n in at)
  }

  lemma AllPlacesAppend(history: seq<Happening>, h: Happening, kind: Happening -> bool, at: seq<nat>)
    requires AllPlaces(history, kind, at)
    ensures AllPlaces(history + [h], kind, at + if kind(h) then [|history|] else [])
  {
    var more, after := history + [h], at + if kind(h) then [|history|] else [];
    forall n | 0 <= n < |more| && kind(more[n]) ensures n in after {
      if n < |history| {
        assert more[n] == history[n] && n in at;
      } else {
        assert after[|at|] == n;
      }
    }
  }

  lemma {:induction false} PlacesExact(history: seq<Happening>, kind: Happening -> bool)
    ensures AllPlaces(history, kind, Places(history, kind))
  {
    if history != [] {
      var n := |history| - 1;
      PlacesExact(history[..n], kind);
      AllPlacesAppend(history[..n], history[n], kind, Places(history[..n], kind));
      assert history[..n] + [history[n]] == history;
    }
  }

  lemma PlacesAppend(history: seq<Happening>, h: Happening, kind: Happening -> bool)
    ensures Places(history + [h], kind) == Places(history, kind) + if kind(h) then [|history|] else []
  {
    assert (history + [h])[..|history|] == history;
  }

  function Count(history: seq<Happening>, key: string, kind: Happening -> bool): nat {
    if history == [] then 0
    else
      var n := |history| - 1;
      Count(history[..n], key, kind) + if kind(history[n]) && history[n].key == key then 1 else 0
  }

  lemma CountAppend(history: seq<Happening>, h: Happening, key: string, kind: Happening -> bool)
    ensures Count(history + [h], key, kind) ==
            Count(history, key, kind) + if kind(h) && h.key == key then 1 else 0
  {
    assert (history + [h])[..|history|] == history;
  }

  // ----- Callbacks answer evictions -----

  function KeysOf(items: seq<Evicted>): seq<string> {
    seq(|items|, i requires 0 <= i < |items| => items[i].key)
  }

  /** Keys that left the cache and are not answered yet, oldest first. */
  function Waiting(s: State): seq<string> {
    (if s.sending.Some? then [s.sending.value.key] else []) + KeysOf(s.evicting)
  }

  /** The n-th callback to end answers the n-th eviction, after it and for the
      same key; the evictions not answered are those waiting, in order. */
  ghost predicate Answered(history: seq<Happening>, waiting: seq<string>) {
    var out, back := Places(history, Eviction), Places(history, Answer);
    && |out| == |back| + |waiting|
    && (forall i :: 0 <= i < |out| ==> out[i] < |history|)
    && (forall i :: 0 <= i < |back| ==> back[i] < |history|)
    && (forall i :: 0 <= i < |back| ==> out[i] < back[i] && history[out[i]].key == history[back[i]].key)
    && (forall i :: 0 <= i < |waiting| ==> history[out[|back| + i]].key == waiting[i])
  }

  /** The events in the order sent. */
  function EventsOf(history: seq<Happening>): seq<Relationship> {
    if history == [] then []
    else
      var n := |history| - 1;
      EventsOf(history[..n]) + if history[n].Sent? then [history[n].event] else []
  }

  /** Whatever is sent or about to be has the very key that left the cache. */
  ghost predicate KeysKept(p: Policy, s: State) {
    && (forall i :: 0 <= i < |s.history| && s.history[i].Sent? ==>
          RelationshipKey(p, s.history[i].event) == Some(s.history[i].key))
    && (s.sending.Some? ==> RelationshipKey(p, s.sending.value.event) == Some(s.sending.value.key))
    && (forall i :: 0 <= i < |s.evicting| ==> RelationshipKeyOf(s.evicting[i].stored) == Some(s.evicting[i].key))
  }

  /** Each insertion of a key is ended by one deletion, by one event sent or
      lost, or still waits or is cached. */
  ghost predicate Accounted(history: seq<Happening>, waiting: seq<string>, cached: bool, key: string) {
    Insertions(history, key) ==
    Count(history, key, EffectiveDeletion) + Count(history, key, Event) + Count(history, key, Loss) +
    multiset(waiting)[key] + if cached then 1 else 0
  }

  ghost predicate AllAccounted(s: State) {
    forall k :: Accounted(s.history, Waiting(s), k in s.relationships, k)
  }

  // ----- What the history says about the cache -----

  /** Times go up. */
  ghost predicate Ordered(s: State) {
    && (forall i, j :: 0 <= i < j < |s.history| ==> s.history[i].at <= s.history[j].at)
    && (forall i :: 0 <= i < |s.history| ==> s.history[i].at <= s.now)
  }

  /** The key was updated, and neither deleted nor collected since. */
  ghost predicate Live(history: seq<Happening>, key: string) {
    && LastUpdate(history, key).Some?
    && forall m :: LastUpdate(history, key).value < m < |history| ==> !Ends(history[m], key)
  }

  ghost predicate CachedIffLive(s: State) {
    forall k :: k in s.relationships <==> Live(s.history, k)
  }

  /** A deletion takes effect exactly on a live key whose interval is not over. */
  ghost predicate DeletionExact(p: Policy, history: seq<Happening>, m: nat)
    requires m < |history| && history[m].DeleteCalled?
  {
    var key := history[m].key;
    history[m].effective <==>
    Live(history[..m], key) && history[m].at <= history[LastUpdate(history[..m], key).value].at + p.interval
  }

  ghost predicate DeletionsExact(p: Policy, history: seq<Happening>) {
    forall m :: 0 <= m < |history| && history[m].DeleteCalled? ==> DeletionExact(p, history, m)
  }

  // ----- What every step keeps -----

  /** How the keys waiting change with what is recorded. */
  predicate QueueMoves(before: seq<string>, h: Happening, after: seq<string>) {
    if h.Collected? then after == before + [h.key]
    else if Answer(h) then before == [h.key] + after
    else after == before
  }

  /** How the presence of a key changes with what is recorded. */
  predicate PresenceMoves(before: bool, h: Happening, key: string, after: bool) {
    if h.key != key then after == before
    else match h
      case Updated(_, _, _, _, inserted) => after && inserted == !before
      case DeleteCalled(_, _, effective) => after == (before && !effective) && (effective ==> before)
      case Collected(_, _) => before && !after
      case _ => after == before
  }

  /** A step records nothing and moves nothing, or records one happening that
      accounts for what it moves. */
  ghost predicate Recorded(s: State, t: State) {
    if t.history == s.history then
      Waiting(t) == Waiting(s) && forall k :: k in t.relationships <==> k in s.relationships
    else
      && |t.history| == |s.history| + 1 && t.history == s.history + [t.history[|s.history|]]
      && t.history[|s.history|].at == s.now
      && QueueMoves(Waiting(s), t.history[|s.history|], Waiting(t))
      && forall k :: PresenceMoves(k in s.relationships, t.history[|s.history|], k, k in t.relationships)
  }

  lemma CallbackRecords(s: State)
    ensures Recorded(s, CallbackStep(s))
  {
    var t := CallbackStep(s);
    if t != s {
      assert Waiting(s) == [s.evicting[0].key] + KeysOf(t.evicting);
    }
  }

  lemma StepRecords(p: Policy, s: State, step: Step)
    ensures Recorded(s, Next(p, s, step))
  {
    var t := Next(p, s, step);
    if step.Callback? {
      CallbackRecords(s);
    } else if step.Send? {
      assert t != s ==> Waiting(s) == [s.sending.value.key] + Waiting(t);
    } else if step.Collect? {
      assert t != s ==> Waiting(t) == Waiting(s) + [step.key];
    }
  }

  lemma AnsweredAppend(history: seq<Happening>, waiting: seq<string>, h: Happening, after: seq<string>)
    requires Answered(history, waiting) && QueueMoves(waiting, h, after)
    ensures Answered(history + [h], after)
  {
    PlacesAppend(history, h, Eviction);
    PlacesAppend(history, h, Answer);
    var out, back := Places(history, Eviction), Places(history, Answer);
    assert forall i :: 0 <= i < |history| ==> (history + [h])[i] == history[i];
    if Answer(h) {
      assert waiting[0] == h.key && history[out[|back| + 0]].key == waiting[0];
      forall i | 0 <= i < |after| ensures history[out[|back| + 1 + i]].key == after[i] {
        assert after[i] == waiting[i + 1] && history[out[|back| + (i + 1)]].key == waiting[i + 1];
      }
    }
  }

  lemma AccountedAppend(
      history: seq<Happening>, waiting: seq<string>, cached: bool, key: string,
      h: Happening, after: seq<string>, cachedAfter: bool)
    requires Accounted(history, waiting, cached, key)
    requires QueueMoves(waiting, h, after) && PresenceMoves(cached, h, key, cachedAfter)
    ensures Accounted(history + [h], after, cachedAfter, key)
  {
    CountsAppend(history, h, key);
    CountAppend(history, h, key, EffectiveDeletion);
    CountAppend(history, h, key, Event);
    CountAppend(history, h, key, Loss);
  }

  /** What is recorded keeps evictions answered and insertions accounted for. */
  lemma RecordKeepsAnswers(s: State, t: State)
    requires Recorded(s, t) && Answered(s.history, Waiting(s)) && AllAccounted(s)
    ensures Answered(t.history, Waiting(t)) && AllAccounted(t)
  {
    if t.history != s.history {
      var h := t.history[|s.history|];
      AnsweredAppend(s.history, Waiting(s), h, Waiting(t));
      forall k ensures Accounted(t.history, Waiting(t), k in t.relationships, k) {
        AccountedAppend(s.history, Waiting(s), k in s.relationships, k, h, Waiting(t), k in t.relationships);
      }
    }
  }

  lemma EventsAppend(history: seq<Happening>, h: Happening)
    ensures EventsOf(history + [h]) == EventsOf(history) + if h.Sent? then [h.event] else []
  {
    assert (history + [h])[..|history|] == history;
  }

  lemma StepKeepsEvents(p: Policy, s: State, step: Step)
    requires s.sent == EventsOf(s.history)
    ensures var t := Next(p, s, step); t.sent == EventsOf(t.history)
  {
    StepRecords(p, s, step);
    var t := Next(p, s, step);
    if t.history != s.history {
      EventsAppend(s.history, t.history[|s.history|]);
    }
  }

  /** The ends found for an item have the hashes they were looked up by. */
  lemma CallbackKeepsKeys(p: Policy, s: State)
    requires EntitiesKeyed(p, s) && KeysKept(p, s)
    ensures KeysKept(p, CallbackStep(s))
  {
  }

  lemma StepKeepsKeys(p: Policy, s: State, step: Step)
    requires EntitiesKeyed(p, s) && AllTracked(p, s) && KeysKept(p, s)
    ensures KeysKept(p, Next(p, s, step))
  {
    if step.Callback? {
      CallbackKeepsKeys(p, s);
    } else if step.Collect? {
      assert Tracked(p, s, step.key);
    }
  }

  lemma LiveAppend(history: seq<Happening>, h: Happening, key: string)
    ensures Live(history + [h], key) <==>
            (h.Updated? && h.key == key) || (Live(history, key) && !Ends(h, key))
  {
    LastUpdateAppend(history, h, key);
    assert forall m :: 0 <= m < |history| ==> (history + [h])[m] == history[m];
    assert (history + [h])[|history|] == h;
  }

  lemma RecordKeepsCachedIffLive(s: State, t: State)
    requires Recorded(s, t) && CachedIffLive(s)
    ensures CachedIffLive(t)
  {
    if t.history != s.history {
      forall k ensures k in t.relationships <==> Live(t.history, k) {
        LiveAppend(s.history, t.history[|s.history|], k);
      }
    }
  }

  lemma RecordKeepsOrdered(s: State, t: State)
    requires Recorded(s, t) && s.now <= t.now && Ordered(s)
    ensures Ordered(t)
  {
  }

  /** A deletion is found exactly when the history says it should be. */
  lemma DeletionIsExact(p: Policy, s: State, r: Relationship)
    requires AllTracked(p, s) && CachedIffLive(s) && RelationshipKey(p, r).Some?
    ensures DeletionExact(p, DeleteStep(p, s, r).history, |s.history|)
  {
    assert DeleteStep(p, s, r).history[..|s.history|] == s.history;
    assert Tracked(p, s, RelationshipKey(p, r).value);
  }

  lemma AppendKeepsDeletionsExact(p: Policy, history: seq<Happening>, h: Happening)
    requires DeletionsExact(p, history)
    requires h.DeleteCalled? ==> DeletionExact(p, history + [h], |history|)
    ensures DeletionsExact(p, history + [h])
  {
    forall m | 0 <= m < |history| && history[m].DeleteCalled? ensures DeletionExact(p, history + [h], m) {
      assert (history + [h])[..m] == history[..m];
      assert DeletionExact(p, history, m);
    }
  }

  lemma StepKeepsDeletionsExact(p: Policy, s: State, step: Step)
    requires AllTracked(p, s) && CachedIffLive(s) && DeletionsExact(p, s.history)
    ensures DeletionsExact(p, Next(p, s, step).history)
  {
    StepRecords(p, s, step);
    var t := Next(p, s, step);
    if t.history != s.history {
      if step.Delete? {
        DeletionIsExact(p, s, step.relationship);
      }
      AppendKeepsDeletionsExact(p, s.history, t.history[|s.history|]);
    }
  }

  ghost predicate EventInv(p: Policy, s: State) {
    && Ordered(s) && Answered(s.history, Waiting(s)) && AllAccounted(s)
    && s.sent == EventsOf(s.history) && KeysKept(p, s)
    && CachedIffLive(s) && DeletionsExact(p, s.history)
  }

  lemma StepKeepsEventInv(p: Policy, s: State, step: Step)
    requires EntitiesKeyed(p, s) && AllTracked(p, s) && EventInv(p, s)
    ensures EventInv(p, Next(p, s, step))
  {
    StepRecords(p, s, step);
    RecordKeepsOrdered(s, Next(p, s, step));
    RecordKeepsAnswers(s, Next(p, s, step));
    StepKeepsEvents(p, s, step);
    StepKeepsKeys(p, s, step);
    RecordKeepsCachedIffLive(s, Next(p, s, step));
    StepKeepsDeletionsExact(p, s, step);
  }

  lemma {:induction false} RunKeepsEventInv(p: Policy, s: State, steps: seq<Step>)
    requires ValidPolicy(p) && Inv(p, s) && EventInv(p, s)
    ensures EventInv(p, Run(p, s, steps))
    decreases |steps|
  {
    if steps != [] {
      StepKeepsEventInv(p, s, steps[0]);
      RunOne(p, s, steps[0]);
      RunKeepsInv(p, s, [steps[0]]);
      RunKeepsEventInv(p, Next(p, s, steps[0]), steps[1..]);
    }
  }

  // ----- Theorems over all runs -----

  /** In every run the callbacks answer the evictions one to one and in order,
      every event has the key that left the cache, and each insertion leads to
      one deletion or one event at most. */
  lemma EventsAnswerEvictions(p: Policy, now: int, steps: seq<Step>)
    requires ValidPolicy(p)
    ensures var s := Run(p, Init(now), steps);
      && AllPlaces(s.history, Eviction, Places(s.history, Eviction))
      && AllPlaces(s.history, Answer, Places(s.history, Answer))
      && Answered(s.history, Waiting(s)) && s.sent == EventsOf(s.history)
      && KeysKept(p, s) && AllAccounted(s)
  {
    RunKeepsEventInv(p, Init(now), steps);
    PlacesExact(Run(p, Init(now), steps).history, Eviction);
    PlacesExact(Run(p, Init(now), steps).history, Answer);
  }

  /** Updates are recorded under the keys of their relationships, and events
      name entities of the run only. */
  ghost predicate Named(p: Policy, s: State, known: set<Entity>) {
    && (forall i :: 0 <= i < |s.history| && s.history[i].Updated? ==>
          RelationshipKey(p, s.history[i].relationship) == Some(s.history[i].key))
    && (forall i :: 0 <= i < |s.history| && s.history[i].Sent? ==> EndsIn(s.history[i].event, known))
    && (s.sending.Some? ==> EndsIn(s.sending.value.event, known))
  }

  lemma {:induction false} RunStaysNamed(p: Policy, s: State, steps: seq<Step>, known: set<Entity>)
    requires ValidPolicy(p) && EntitiesKeyed(p, s) && Within(s, known) && Named(p, s, known)
    requires EntitiesOf(steps) <= known
    ensures Named(p, Run(p, s, steps), known)
    decreases |steps|
  {
    if steps != [] {
      StepStaysNamed(p, s, steps[0], known);
      StepAgesEntities(p, s, steps[0]);
      StepStaysWithin(p, s, steps[0], known);
      RunStaysNamed(p, Next(p, s, steps[0]), steps[1..], known);
    }
  }

  lemma StepStaysNamed(p: Policy, s: State, step: Step, known: set<Entity>)
    requires EntitiesKeyed(p, s) && Within(s, known) && Named(p, s, known)
    ensures Named(p, Next(p, s, step), known)
  {
  }

  /** Relationships with one key are one, when the hash tells their ends apart. */
  lemma KeyNamesRelationship(p: Policy, a: Relationship, b: Relationship, known: set<Entity>)
    requires CollisionFreeOn(p.hash, known) && EndsIn(a, known) && EndsIn(b, known)
    requires RelationshipKey(p, a).Some? && RelationshipKey(p, a) == RelationshipKey(p, b)
    ensures a == b
  {
    RelationshipKeyIdentifies(
      a.kind, p.hash(a.source).value, p.hash(a.destination).value,
      b.kind, p.hash(b.source).value, p.hash(b.destination).value);
  }

  /** In every run whose entities the hash tells apart, an event carries type
      and ends of the updates of its key, however late it is sent. */
  lemma EventNamesRelationship(p: Policy, now: int, steps: seq<Step>, i: nat, j: nat)
    requires ValidPolicy(p) && CollisionFreeOn(p.hash, EntitiesOf(steps))
    requires var history := Run(p, Init(now), steps).history;
      i < |history| && j < |history| && history[i].Sent? && history[j].Updated? && history[i].key == history[j].key
    ensures var history := Run(p, Init(now), steps).history; history[i].event == history[j].relationship
  {
    var known, history := EntitiesOf(steps), Run(p, Init(now), steps).history;
    RunKeepsEventInv(p, Init(now), steps);
    RunStaysWithin(p, Init(now), steps, known);
    RunStaysNamed(p, Init(now), steps, known);
    KeyNamesRelationship(p, history[i].event, history[j].relationship, known);
  }

  /** At least the interval after the last update, and not deleted since. */
  ghost predicate Due(p: Policy, history: seq<Happening>, i: nat)
    requires i < |history|
  {
    var key := history[i].key;
    var j := LastUpdate(history[..i], key);
    && j.Some?
    && history[j.value].at + p.interval <= history[i].at
    && forall m :: j.value < m < i && history[m].key == key ==> !EffectiveDeletion(history[m])
  }

  /** An update of the key was linked between `from` and `to`. */
  ghost predicate Renewed(history: seq<Happening>, key: string, from: nat, to: nat)
    requires to <= |history|
  {
    exists j :: from < j < to && history[j].Updated? && history[j].key == key
  }

  ghost predicate EvictedBetween(history: seq<Happening>, key: string, from: nat, to: nat)
    requires to <= |history|
  {
    exists m :: from < m < to && history[m].Collected? && history[m].key == key
  }

  /** Between the update at `j` and `i` no deletion was called within the
      interval, unless on its last tick, when the key had left the cache. */
  ghost predicate NoneInTime(p: Policy, history: seq<Happening>, key: string, j: nat, i: nat)
    requires j < i <= |history|
  {
    forall m :: j < m < i && history[m].DeleteCalled? && history[m].key == key ==>
      history[m].at > history[j].at + p.interval || EvictedBetween(history, key, j, m)
  }

  /** The last update before `i` has run its interval without a deletion. */
  ghost predicate RanOut(p: Policy, history: seq<Happening>, i: nat)
    requires i < |history|
  {
    var key := history[i].key;
    var j := LastUpdate(history[..i], key);
    && j.Some? && history[j.value].at + p.interval <= history[i].at
    && NoneInTime(p, history, key, j.value, i)
  }

  /** Past its last update there is no later update. */
  lemma {:induction false} LastUpdateIsLast(history: seq<Happening>, key: string)
    ensures match LastUpdate(history, key)
      case None => forall m :: 0 <= m < |history| ==> !(history[m].Updated? && history[m].key == key)
      case Some(j) => forall m :: j < m < |history| ==> !(history[m].Updated? && history[m].key == key)
  {
    if history != [] {
      LastUpdateIsLast(history[..|history| - 1], key);
    }
  }

  /** The last update before `m` is that before `i`, with none in between. */
  lemma {:induction false} LastUpdateStays(history: seq<Happening>, key: string, m: nat, i: nat)
    requires m <= i <= |history|
    requires forall n :: m <= n < i ==> !(history[n].Updated? && history[n].key == key)
    ensures LastUpdate(history[..i], key) == LastUpdate(history[..m], key)
    decreases i
  {
    if m < i {
      assert history[..i][..i - 1] == history[..i - 1];
      LastUpdateStays(history, key, m, i - 1);
    }
  }

  /** Without a renewal the event is as due as the eviction was. */
  lemma UnrenewedIsDue(p: Policy, history: seq<Happening>, c: nat, a: nat)
    requires c < a < |history| && history[c].Collected? && history[c].key == history[a].key
    requires Justified(p, history, c) && DeletionsExact(p, history) && history[c].at <= history[a].at
    requires !Renewed(history, history[a].key, c, a)
    ensures Due(p, history, a)
  {
    var key := history[a].key;
    LastUpdateStays(history, key, c, a);
    var j := LastUpdate(history[..c], key).value;
    forall m | j < m < a && history[m].key == key ensures !EffectiveDeletion(history[m]) {
      if c < m && history[m].DeleteCalled? {
        LastUpdateStays(history, key, c, m);
        assert Ends(history[..m][c], key) && DeletionExact(p, history, m);
      }
    }
  }

  /** Since the last update, a deletion took effect exactly if one was called in time on a key not collected. */
  lemma {:induction false} NoDeletionIff(p: Policy, history: seq<Happening>, key: string, j: nat, i: nat)
    requires i <= |history| && LastUpdate(history[..i], key) == Some(j) && DeletionsExact(p, history)
    ensures (forall m :: j < m < i && history[m].key == key ==> !EffectiveDeletion(history[m])) <==>
            NoneInTime(p, history, key, j, i)
  {
    LastUpdateIsLast(history[..i], key);
    forall m | j < m < i && history[m].DeleteCalled? && history[m].key == key
      ensures history[m].effective <==>
        history[m].at <= history[j].at + p.interval && forall q :: j < q < m ==> !Ends(history[q], key)
    {
      LastUpdateStays(history, key, m, i);
      assert DeletionExact(p, history, m);
      assert forall q :: j < q < m ==> history[..m][q] == history[q];
    }
  }

  lemma DueIff(p: Policy, history: seq<Happening>, c: nat, a: nat)
    requires c < a < |history| && history[c].Collected? && history[c].key == history[a].key
    requires Justified(p, history, c) && DeletionsExact(p, history) && history[c].at <= history[a].at
    ensures Due(p, history, a) <==> !Renewed(history, history[a].key, c, a) || RanOut(p, history, a)
  {
    var key := history[a].key;
    if Renewed(history, key, c, a) {
      LastUpdateIsLast(history[..a], key);
      NoDeletionIff(p, history, key, LastUpdate(history[..a], key).value, a);
    } else {
      UnrenewedIsDue(p, history, c, a);
    }
  }

  /** When an event still is what the design says of it: the n-th callback to
      end, at `a`, comes the interval after the last update of its key, with no
      effective deletion since, exactly when no update of that key was linked
      since its eviction at `c`, or the last one so linked has run out too. */
  lemma EventDueIff(p: Policy, now: int, steps: seq<Step>, n: nat)
    requires ValidPolicy(p) && n < |Places(Run(p, Init(now), steps).history, Answer)|
    ensures var history := Run(p, Init(now), steps).history;
      var c, a := Places(history, Eviction), Places(history, Answer);
      && n < |c| && c[n] < a[n] < |history| && history[c[n]].key == history[a[n]].key
      && (Due(p, history, a[n]) <==> !Renewed(history, history[a[n]].key, c[n], a[n]) || RanOut(p, history, a[n]))
  {
    RunKeepsInv(p, Init(now), steps);
    RunKeepsEventInv(p, Init(now), steps);
    var history := Run(p, Init(now), steps).history;
    PlacesExact(history, Eviction);
    DueIff(p, history, Places(history, Eviction)[n], Places(history, Answer)[n]);
  }

  // ----- Inputs on which an event is not due -----

  /** A relationship collected as soon as it is due, then updated again, then
      maybe deleted, before its event is sent. */
  function RenewedSteps(p: Policy, r: Relationship, key: string, delete: bool): seq<Step>
    requires 0 < p.interval
  {
    UpdateSteps(0, r, 0, 0) + ([Tick(p.interval)] + ([Collect(key)] + (
    UpdateSteps(0, r, 0, 0) + ((if delete then [Delete(r)] else []) + ([Callback] + [Send])))))
  }

  lemma RunAfterUpdate(p: Policy, s: State, r: Relationship, rest: seq<Step>)
    requires s.updating == [] && EntityKeys(p, r).Some?
    ensures Run(p, s, UpdateSteps(0, r, 0, 0) + rest) ==
            Run(p, UpdatedAlone(p, s, r, EntityKeys(p, r).value, 0, 0), rest)
  {
    RunConcat(p, s, UpdateSteps(0, r, 0, 0), rest);
    UpdateCallAlone(p, s, r, 0, 0);
  }

  /** The state right before the callback. */
  function RenewedState(p: Policy, now: int, r: Relationship, k: Keys, key: string, delete: bool): State
    requires 0 < p.interval
  {
    var collected := Next(p, Next(p, UpdatedAlone(p, Init(now), r, k, 0, 0), Tick(p.interval)), Collect(key));
    var renewed := UpdatedAlone(p, collected, r, k, 0, 0);
    if delete then Next(p, renewed, Delete(r)) else renewed
  }

  lemma RenewedRun(p: Policy, now: int, r: Relationship, k: Keys, key: string, delete: bool)
    requires ValidPolicy(p) && EntityKeys(p, r) == Some(k) && RelationshipKey(p, r) == Some(key)
    ensures Run(p, Init(now), RenewedSteps(p, r, key, delete)) ==
            SendStep(CallbackStep(RenewedState(p, now, r, k, key, delete)))
  {
    var last := (if delete then [Delete(r)] else []) + ([Callback] + [Send]);
    var s1 := UpdatedAlone(p, Init(now), r, k, 0, 0);
    var s2 := Next(p, s1, Tick(p.interval));
    var s3 := Next(p, s2, Collect(key));
    var s4 := UpdatedAlone(p, s3, r, k, 0, 0);
    RunAfterUpdate(p, Init(now), r, [Tick(p.interval)] + ([Collect(key)] + (UpdateSteps(0, r, 0, 0) + last)));
    RunFirst(p, s1, Tick(p.interval), [Collect(key)] + (UpdateSteps(0, r, 0, 0) + last));
    RunFirst(p, s2, Collect(key), UpdateSteps(0, r, 0, 0) + last);
    RunAfterUpdate(p, s3, r, last);
    LastSteps(p, s4, r, delete);
  }

  lemma LastSteps(p: Policy, s: State, r: Relationship, delete: bool)
    ensures Run(p, s, (if delete then [Delete(r)] else []) + ([Callback] + [Send])) ==
            SendStep(CallbackStep(if delete then Next(p, s, Delete(r)) else s))
  {
    var t := if delete then Next(p, s, Delete(r)) else s;
    if delete {
      RunFirst(p, s, Delete(r), [Callback] + [Send]);
    } else {
      assert [] + ([Callback] + [Send]) == [Callback] + [Send];
    }
    RunFirst(p, t, Callback, [Send]);
    RunOne(p, CallbackStep(t), Send);
  }

  /** The event is sent on the tick of the renewal and, if any, the deletion. */
  lemma RenewedHistory(p: Policy, now: int, r: Relationship, k: Keys, key: string, delete: bool)
    requires ValidPolicy(p) && EntityKeys(p, r) == Some(k) && RelationshipKey(p, r) == Some(key)
    ensures var s, end := SendStep(CallbackStep(RenewedState(p, now, r, k, key, delete))), now + p.interval;
      && s.now == end && |s.sent| == 1
      && s.history ==
         [Updated(key, now, now, r, true), Collected(key, end), Updated(key, end, end, r, true)] +
         (if delete then [DeleteCalled(key, end, true)] else []) + [Sent(key, end, s.sent[0])]
  {
    var collected := Next(p, Next(p, UpdatedAlone(p, Init(now), r, k, 0, 0), Tick(p.interval)), Collect(key));
    assert collected.evicting == [Evicted(key, StoredRelationship(r.kind, k.source, k.dest), now, now + p.interval)];
    assert collected.history == [Updated(key, now, now, r, true), Collected(key, now + p.interval)];
    var s := RenewedState(p, now, r, k, key, delete);
    assert FoundEntity(s, k.source) && FoundEntity(s, k.dest);
  }

  /** Its event is sent on the very tick of the update of its key. */
  lemma SentAfterRenewal(p: Policy, now: int, r: Relationship)
    requires ValidPolicy(p) && RelationshipKey(p, r).Some?
    ensures var key := RelationshipKey(p, r).value;
      var s := Run(p, Init(now), RenewedSteps(p, r, key, false));
      && |s.history| == 4 && s.history[2] == Updated(key, s.now, s.now, r, true)
      && s.history[3].Sent? && s.history[3].key == key && s.history[3].at == s.now
      && !Due(p, s.history, 3)
  {
    var k, key := EntityKeys(p, r).value, RelationshipKey(p, r).value;
    RenewedRun(p, now, r, k, key, false);
    RenewedHistory(p, now, r, k, key, false);
  }

  /** Its event is sent after a deletion that took effect. */
  lemma SentAfterDeletion(p: Policy, now: int, r: Relationship)
    requires ValidPolicy(p) && RelationshipKey(p, r).Some?
    ensures var key := RelationshipKey(p, r).value;
      var s := Run(p, Init(now), RenewedSteps(p, r, key, true));
      && |s.history| == 5 && s.history[3] == DeleteCalled(key, s.now, true)
      && s.history[4].Sent? && s.history[4].key == key && s.history[4].at == s.now
      && !Due(p, s.history, 4)
  {
    var k, key := EntityKeys(p, r).value, RelationshipKey(p, r).value;
    RenewedRun(p, now, r, k, key, true);
    RenewedHistory(p, now, r, k, key, true);
  }
}
