/**
 * Relationship expiration in the entity connector. Two caches with time to
 * live, one for relationships and one for the entities they connect, must
 * stay in step so that an expiring relationship can still name its ends.
 * Times and durations are nanoseconds.
 */
module Expiration {
  import opened Outcomes
  import opened KeyBuilder
  import opened Int64

  const SECOND := 1_000_000_000
  const ENTITY_TTL_FACTOR := 5

  datatype Relationship = Relationship(kind: string, source: Entity, destination: Entity)

  datatype StoredRelationship = StoredRelationship(kind: string, sourceHash: string, destHash: string)

  datatype TimedEntity = TimedEntity(entity: Entity, expires: int)

  /** `since` is the time from which both ends are good for their lifetime. */
  datatype TimedRelationship = TimedRelationship(stored: StoredRelationship, since: int, expires: int)

  /** A relationship taken out of the cache whose callback has not run yet. */
  datatype Evicted = Evicted(key: string, stored: StoredRelationship, since: int, expired: int)

  /** The expiry event of a key, made by the callback and not taken off its hands yet. */
  datatype Sending = Sending(key: string, event: Relationship)

  /** `interval` is the time to live of a relationship. */
  datatype Policy = Policy(interval: int, cleanup: int, entityTtl: int, hash: EntityHash)

  datatype Keys = Keys(source: string, dest: string)

  /** An update under way: its source is stored, its destination maybe. */
  datatype Updating = Updating(relationship: Relationship, keys: Keys, since: int, destStored: bool)

  datatype Happening =
    | Updated(key: string, since: int, at: int, relationship: Relationship, inserted: bool)
    | DeleteCalled(key: string, at: int, effective: bool)
    | Collected(key: string, at: int)
    | Sent(key: string, at: int, event: Relationship)
    | Lost(key: string, at: int)

  datatype State = State(
    now: int,
    updating: seq<Updating>,
    entities: map<string, TimedEntity>,
    relationships: map<string, TimedRelationship>,
    evicting: seq<Evicted>,
    sending: Option<Sending>,
    sent: seq<Relationship>,
    history: seq<Happening>)

  // ----- Times to live -----

  /** newInternalStorage refuses a cleanup interval below one second. */
  function NewInternalStorage(interval: int, cleanup: int, hash: EntityHash): Option<Policy> {
    if cleanup < SECOND then None
    else Some(Policy(interval, cleanup, Wrap64(Wrap64(interval + cleanup) * ENTITY_TTL_FACTOR), hash))
  }

  ghost predicate ValidPolicy(p: Policy) {
    0 < p.interval && SECOND <= p.cleanup && p.entityTtl == ENTITY_TTL_FACTOR * (p.interval + p.cleanup)
  }

  /** A cleanup interval of a second or more makes a policy, with entities kept
      five times as long as both intervals together exactly when that fits 64
      bits. */
  lemma PolicyValidIffFits(interval: int, cleanup: int, hash: EntityHash)
    requires 0 < interval <= MAX_INT64 && cleanup <= MAX_INT64
    ensures var p, ttl := NewInternalStorage(interval, cleanup, hash), 5 * (interval + cleanup);
      && (p.Some? <==> cleanup >= 1_000_000_000)
      && (p.Some? ==>
            && p.value.interval == interval && p.value.cleanup == cleanup && p.value.hash == hash
            && (p.value.entityTtl == ttl <==> ttl <= 9_223_372_036_854_775_807)
            && (ValidPolicy(p.value) <==> ttl <= 9_223_372_036_854_775_807))
  {
    var sum := interval + cleanup;
    if ENTITY_TTL_FACTOR * sum <= MAX_INT64 && cleanup >= SECOND {
      assert Wrap64(sum) == sum;
    }
  }

  // ----- Steps -----

  function EntityKeys(p: Policy, r: Relationship): Option<Keys> {
    var source, dest := BuildEntityKey(p.hash, r.source), BuildEntityKey(p.hash, r.destination);
    if source.None? || dest.None? then None else Some(Keys(source.value, dest.value))
  }

  function RelationshipKey(p: Policy, r: Relationship): Option<string> {
    match EntityKeys(p, r)
    case None => None
    case Some(k) => BuildRelationshipKey(r.kind, k.source, k.dest)
  }

  /** The first write of an update: its source entity. */
  function StoreSource(p: Policy, s: State, r: Relationship): State {
    match EntityKeys(p, r)
    case None => s
    case Some(k) =>
      s.(entities := s.entities[k.source := TimedEntity(r.source, s.now + p.entityTtl)],
         updating := s.updating + [Updating(r, k, s.now, false)])
  }

  /** The second write: its destination entity, maybe over the source. */
  function StoreDestination(p: Policy, s: State, i: nat): State {
    if i >= |s.updating| || s.updating[i].destStored then s
    else
      var u := s.updating[i];
      var since := if u.keys.source == u.keys.dest then s.now else u.since;
      s.(entities := s.entities[u.keys.dest := TimedEntity(u.relationship.destination, s.now + p.entityTtl)],
         updating := s.updating[i := u.(since := since, destStored := true)])
  }

  function Without(updating: seq<Updating>, i: nat): seq<Updating>
    requires i < |updating|
  {
    updating[..i] + updating[i + 1..]
  }

  /** The last write: the relationship, unless its type is empty. */
  function StoreRelationship(p: Policy, s: State, i: nat): State {
    if i >= |s.updating| || !s.updating[i].destStored then s
    else
      var u := s.updating[i];
      var s1 := s.(updating := Without(s.updating, i));
      match BuildRelationshipKey(u.relationship.kind, u.keys.source, u.keys.dest)
      case None => s1
      case Some(key) =>
        var stored := StoredRelationship(u.relationship.kind, u.keys.source, u.keys.dest);
        s1.(relationships := s.relationships[key := TimedRelationship(stored, u.since, s.now + p.interval)],
            history := s.history + [Updated(key, u.since, s.now, u.relationship, key !in s.relationships)])
  }

  /** A write that the cache turns down ends the update. */
  function Abandon(s: State, i: nat): State {
    if i >= |s.updating| then s else s.(updating := Without(s.updating, i))
  }

  /** Get does not find an entry whose time has passed. */
  predicate FoundRelationship(s: State, key: string) {
    key in s.relationships && s.now <= s.relationships[key].expires
  }

  predicate FoundEntity(s: State, hash: string) {
    hash in s.entities && s.now <= s.entities[hash].expires
  }

  function DeleteStep(p: Policy, s: State, r: Relationship): State {
    match RelationshipKey(p, r)
    case None => s
    case Some(key) =>
      var found := FoundRelationship(s, key);
      s.(relationships := if found then s.relationships - {key} else s.relationships,
         history := s.history + [DeleteCalled(key, s.now, found)])
  }

  /** The cleanup takes an expired relationship out of its cache. */
  function CollectStep(s: State, key: string): State {
    if key !in s.relationships || s.now < s.relationships[key].expires then s
    else
      var item := s.relationships[key];
      s.(relationships := s.relationships - {key},
         evicting := s.evicting + [Evicted(key, item.stored, item.since, item.expires)],
         history := s.history + [Collected(key, s.now)])
  }

  /** onRelationshipEvict for the oldest item taken out looks up its ends; one
      callback runs at a time. */
  function CallbackStep(s: State): State {
    if s.evicting == [] || s.sending.Some? then s
    else
      var key, item := s.evicting[0].key, s.evicting[0].stored;
      var s1 := s.(evicting := s.evicting[1..]);
      if FoundEntity(s, item.sourceHash) && FoundEntity(s, item.destHash) then
        var source, dest := s.entities[item.sourceHash].entity, s.entities[item.destHash].entity;
        s1.(sending := Some(Sending(key, Relationship(item.kind, source, dest))))
      else s1.(history := s.history + [Lost(key, s.now)])
  }

  /** The event waits until the unbuffered channel takes it. */
  function SendStep(s: State): State {
    match s.sending
    case None => s
    case Some(Sending(key, event)) =>
      s.(sending := None, sent := s.sent + [event], history := s.history + [Sent(key, s.now, event)])
  }

  /** The cleanup drops an expired entity. */
  function ForgetStep(s: State, hash: string): State {
    if hash in s.entities && s.entities[hash].expires <= s.now
    then s.(entities := s.entities - {hash}) else s
  }

  datatype Step =
    | Tick(elapsed: nat)
    | Source(relationship: Relationship)
    | Destination(update: nat)
    | Link(update: nat)
    | GiveUp(update: nat)
    | Delete(relationship: Relationship)
    | Collect(key: string)
    | Callback
    | Send
    | Forget(hash: string)

  function Next(p: Policy, s: State, step: Step): State {
    match step
    case Tick(d) => s.(now := s.now + d)
    case Source(r) => StoreSource(p, s, r)
    case Destination(i) => StoreDestination(p, s, i)
    case Link(i) => StoreRelationship(p, s, i)
    case GiveUp(i) => Abandon(s, i)
    case Delete(r) => DeleteStep(p, s, r)
    case Collect(key) => CollectStep(s, key)
    case Callback => CallbackStep(s)
    case Send => SendStep(s)
    case Forget(hash) => ForgetStep(s, hash)
  }

  function Run(p: Policy, s: State, steps: seq<Step>): State
    decreases |steps|
  {
    if steps == [] then s else Run(p, Next(p, s, steps[0]), steps[1..])
  }

  function Init(now: int): State {
    State(now, [], map[], map[], [], None, [], [])
  }

  // ----- A whole update -----

  lemma RunFirst(p: Policy, s: State, step: Step, rest: seq<Step>)
    ensures Run(p, s, [step] + rest) == Run(p, Next(p, s, step), rest)
  {
    assert ([step] + rest)[1..] == rest;
  }

  lemma RunOne(p: Policy, s: State, step: Step)
    ensures Run(p, s, [step]) == Next(p, s, step)
  {
    assert [step][1..] == [];
  }

  lemma {:induction false} RunConcat(p: Policy, s: State, a: seq<Step>, b: seq<Step>)
    ensures Run(p, s, a + b) == Run(p, Run(p, s, a), b)
    decreases |a|
  {
    if a == [] {
      assert a + b == b;
    } else {
      assert (a + b)[1..] == a[1..] + b;
      RunConcat(p, Next(p, s, a[0]), a[1..], b);
    }
  }

  /** The steps of the update numbered `i`, with the time that passes between its three writes. */
  function UpdateSteps(i: nat, r: Relationship, first: nat, second: nat): seq<Step> {
    [Source(r)] + ([Tick(first)] + ([Destination(i)] + ([Tick(second)] + [Link(i)])))
  }

  /** One call of update. */
  function UpdateCall(p: Policy, s: State, r: Relationship, first: nat, second: nat): State {
    if EntityKeys(p, r).None? then s else Run(p, s, UpdateSteps(|s.updating|, r, first, second))
  }

  lemma UpdateCallRuns(p: Policy, s: State, i: nat, r: Relationship, first: nat, second: nat)
    ensures Run(p, s, UpdateSteps(i, r, first, second)) ==
      StoreRelationship(p, Next(p, StoreDestination(p, Next(p, StoreSource(p, s, r), Tick(first)), i), Tick(second)), i)
  {
    var s1 := Next(p, s, Source(r));
    var s2 := Next(p, s1, Tick(first));
    var s3 := Next(p, s2, Destination(i));
    var s4 := Next(p, s3, Tick(second));
    RunFirst(p, s, Source(r), [Tick(first)] + ([Destination(i)] + ([Tick(second)] + [Link(i)])));
    RunFirst(p, s1, Tick(first), [Destination(i)] + ([Tick(second)] + [Link(i)]));
    RunFirst(p, s2, Destination(i), [Tick(second)] + [Link(i)]);
    RunFirst(p, s3, Tick(second), [Link(i)]);
    RunOne(p, s4, Link(i));
  }

  /** What a call leaves behind when no other update is under way. */
  function UpdatedAlone(p: Policy, s: State, r: Relationship, k: Keys, first: nat, second: nat): State {
    var middle, end := s.now + first, s.now + first + second;
    var since := if k.source == k.dest then middle else s.now;
    var stored := s.(
      now := end,
      entities := s.entities[k.source := TimedEntity(r.source, s.now + p.entityTtl)]
                            [k.dest := TimedEntity(r.destination, middle + p.entityTtl)]);
    match BuildRelationshipKey(r.kind, k.source, k.dest)
    case None => stored
    case Some(key) =>
      var item := TimedRelationship(StoredRelationship(r.kind, k.source, k.dest), since, end + p.interval);
      stored.(relationships := s.relationships[key := item],
              history := s.history + [Updated(key, since, end, r, key !in s.relationships)])
  }

  lemma UpdateCallAlone(p: Policy, s: State, r: Relationship, first: nat, second: nat)
    requires s.updating == [] && EntityKeys(p, r).Some?
    ensures UpdateCall(p, s, r, first, second) == UpdatedAlone(p, s, r, EntityKeys(p, r).value, first, second)
  {
    UpdateCallRuns(p, s, 0, r, first, second);
    var k := EntityKeys(p, r).value;
    var s1 := Next(p, StoreSource(p, s, r), Tick(first));
    assert s1.updating == [Updating(r, k, s.now, false)];
    var s2 := Next(p, StoreDestination(p, s1, 0), Tick(second));
    var since := if k.source == k.dest then s1.now else s.now;
    assert s2.updating == [Updating(r, k, since, true)];
    assert Without(s2.updating, 0) == [];
  }

  // ----- What every step keeps -----

  /** An entity is in the cache for its full time after `from`, unless that time is over. */
  ghost predicate Covered(p: Policy, s: State, hash: string, from: int) {
    || s.now >= from + p.entityTtl
    || (hash in s.entities && s.entities[hash].expires >= from + p.entityTtl)
  }

  ghost predicate EndsCovered(p: Policy, s: State, stored: StoredRelationship, since: int) {
    Covered(p, s, stored.sourceHash, since) && Covered(p, s, stored.destHash, since)
  }

  ghost predicate EntitiesKeyed(p: Policy, s: State) {
    && (forall h :: h in s.entities ==>
          BuildEntityKey(p.hash, s.entities[h].entity) == Some(h) && s.entities[h].expires <= s.now + p.entityTtl)
    && (forall i :: 0 <= i < |s.updating| ==> EntityKeys(p, s.updating[i].relationship) == Some(s.updating[i].keys))
  }

  /** The last update of a key in the history. */
  function LastUpdate(history: seq<Happening>, key: string): (r: Option<nat>)
    ensures r.Some? ==> r.value < |history| && history[r.value].Updated? && history[r.value].key == key
  {
    if history == [] then None
    else
      var n := |history| - 1;
      if history[n].Updated? && history[n].key == key then Some(n) else LastUpdate(history[..n], key)
  }

  ghost predicate StoredFrom(p: Policy, stored: StoredRelationship, r: Relationship) {
    EntityKeys(p, r) == Some(Keys(stored.sourceHash, stored.destHash)) && stored.kind == r.kind
  }

  /** The end of a callback, with or without an event. */
  predicate Answer(h: Happening) {
    h.Sent? || h.Lost?
  }

  /** Since index `j` the key was neither updated, collected nor effectively
      deleted, and every deletion tried came after the relationship had
      expired; callbacks for earlier evictions may have ended. */
  ghost predicate Undisturbed(history: seq<Happening>, key: string, j: nat, end: nat, expires: int)
    requires end <= |history|
  {
    forall m :: j < m < end && history[m].key == key ==>
      Answer(history[m]) || (history[m].DeleteCalled? && !history[m].effective && history[m].at > expires)
  }

  ghost predicate Tracked(p: Policy, s: State, key: string) {
    key in s.relationships ==>
      var item := s.relationships[key];
      && RelationshipKeyOf(item.stored) == Some(key)
      && LastUpdate(s.history, key).Some?
      && var j := LastUpdate(s.history, key).value;
      && j < |s.history| && s.history[j].Updated? && s.history[j].key == key
      && s.history[j].at + p.interval == item.expires && s.history[j].since == item.since
      && StoredFrom(p, item.stored, s.history[j].relationship)
      && Undisturbed(s.history, key, j, |s.history|, item.expires)
  }

  function RelationshipKeyOf(stored: StoredRelationship): Option<string> {
    BuildRelationshipKey(stored.kind, stored.sourceHash, stored.destHash)
  }

  /** What an update has stored so far is covered. */
  ghost predicate UpdatingCovered(p: Policy, s: State, u: Updating) {
    Covered(p, s, u.keys.source, u.since) && (u.destStored ==> Covered(p, s, u.keys.dest, u.since))
  }

  ghost predicate AllCovered(p: Policy, s: State) {
    && (forall i :: 0 <= i < |s.updating| ==> s.updating[i].since <= s.now && UpdatingCovered(p, s, s.updating[i]))
    && (forall k :: k in s.relationships ==>
          EndsCovered(p, s, s.relationships[k].stored, s.relationships[k].since))
    && (forall i :: 0 <= i < |s.evicting| ==>
          s.evicting[i].expired <= s.now && EndsCovered(p, s, s.evicting[i].stored, s.evicting[i].since))
  }

  ghost predicate AllTracked(p: Policy, s: State) {
    forall k :: Tracked(p, s, k)
  }

  lemma LastUpdateAppend(history: seq<Happening>, h: Happening, key: string)
    ensures LastUpdate(history + [h], key) ==
            if h.Updated? && h.key == key then Some(|history|) else LastUpdate(history, key)
  {
    assert (history + [h])[..|history|] == history;
  }

  /** Time moves on and entities are only refreshed, or dropped once expired. */
  ghost predicate EntitiesAge(s: State, t: State) {
    && s.now <= t.now
    && forall h :: h in s.entities ==>
         || s.entities[h].expires <= t.now
         || (h in t.entities && s.entities[h].expires <= t.entities[h].expires)
  }

  /** One entity stored now is keyed and refreshes what was there. */
  lemma StoringAgesEntities(p: Policy, s: State, t: State, h: string, e: Entity)
    requires ValidPolicy(p) && EntitiesKeyed(p, s) && BuildEntityKey(p.hash, e) == Some(h)
    requires t.now == s.now && t.entities == s.entities[h := TimedEntity(e, s.now + p.entityTtl)]
    requires forall i :: 0 <= i < |t.updating| ==>
               EntityKeys(p, t.updating[i].relationship) == Some(t.updating[i].keys)
    ensures EntitiesKeyed(p, t) && EntitiesAge(s, t)
  {
  }

  lemma SourceAgesEntities(p: Policy, s: State, r: Relationship)
    requires ValidPolicy(p) && EntitiesKeyed(p, s)
    ensures EntitiesKeyed(p, StoreSource(p, s, r)) && EntitiesAge(s, StoreSource(p, s, r))
  {
    if EntityKeys(p, r).Some? {
      StoringAgesEntities(p, s, StoreSource(p, s, r), EntityKeys(p, r).value.source, r.source);
    }
  }

  lemma DestinationAgesEntities(p: Policy, s: State, i: nat)
    requires ValidPolicy(p) && EntitiesKeyed(p, s)
    ensures EntitiesKeyed(p, StoreDestination(p, s, i)) && EntitiesAge(s, StoreDestination(p, s, i))
  {
    if i < |s.updating| && !s.updating[i].destStored {
      var u := s.updating[i];
      StoringAgesEntities(p, s, StoreDestination(p, s, i), u.keys.dest, u.relationship.destination);
    }
  }

  /** Steps that store no entity at most drop an expired one. */
  lemma OthersAgeEntities(p: Policy, s: State, t: State)
    requires EntitiesKeyed(p, s) && s.now <= t.now
    requires forall h :: h in t.entities ==> h in s.entities && t.entities[h] == s.entities[h]
    requires forall h :: h in s.entities && h !in t.entities ==> s.entities[h].expires <= t.now
    requires forall i :: 0 <= i < |t.updating| ==> t.updating[i] in s.updating
    ensures EntitiesKeyed(p, t) && EntitiesAge(s, t)
  {
  }

  lemma StepAgesEntities(p: Policy, s: State, step: Step)
    requires ValidPolicy(p) && EntitiesKeyed(p, s)
    ensures EntitiesKeyed(p, Next(p, s, step)) && EntitiesAge(s, Next(p, s, step))
  {
    if step.Source? {
      SourceAgesEntities(p, s, step.relationship);
    } else if step.Destination? {
      DestinationAgesEntities(p, s, step.update);
    } else {
      OthersAgeEntities(p, s, Next(p, s, step));
    }
  }

  lemma AgingKeepsCover(p: Policy, s: State, t: State)
    requires EntitiesAge(s, t) && AllCovered(p, s)
    ensures forall i :: 0 <= i < |s.updating| ==>
              s.updating[i].since <= t.now && UpdatingCovered(p, t, s.updating[i])
    ensures forall k :: k in s.relationships ==>
              EndsCovered(p, t, s.relationships[k].stored, s.relationships[k].since)
    ensures forall i :: 0 <= i < |s.evicting| ==>
              s.evicting[i].expired <= t.now && EndsCovered(p, t, s.evicting[i].stored, s.evicting[i].since)
  {
  }

  lemma OthersKeepCovered(p: Policy, s: State, t: State)
    requires EntitiesAge(s, t) && AllCovered(p, s)
    requires forall i :: 0 <= i < |t.updating| ==> t.updating[i] in s.updating
    requires forall k :: k in t.relationships ==> k in s.relationships && t.relationships[k] == s.relationships[k]
    requires forall i :: 0 <= i < |t.evicting| ==> t.evicting[i] in s.evicting
    ensures AllCovered(p, t)
  {
    AgingKeepsCover(p, s, t);
  }

  lemma SourceKeepsCovered(p: Policy, s: State, r: Relationship)
    requires ValidPolicy(p) && EntitiesKeyed(p, s) && AllCovered(p, s)
    ensures AllCovered(p, StoreSource(p, s, r))
  {
    SourceAgesEntities(p, s, r);
    AgingKeepsCover(p, s, StoreSource(p, s, r));
  }

  lemma DestinationKeepsCovered(p: Policy, s: State, i: nat)
    requires ValidPolicy(p) && EntitiesKeyed(p, s) && AllCovered(p, s)
    ensures AllCovered(p, StoreDestination(p, s, i))
  {
    DestinationAgesEntities(p, s, i);
    AgingKeepsCover(p, s, StoreDestination(p, s, i));
  }

  lemma LinkKeepsCovered(p: Policy, s: State, i: nat)
    requires AllCovered(p, s)
    ensures AllCovered(p, StoreRelationship(p, s, i))
  {
    var t := StoreRelationship(p, s, i);
    if t != s {
      assert UpdatingCovered(p, s, s.updating[i]);
      assert t.updating == Without(s.updating, i);
    }
  }

  lemma CollectKeepsCovered(p: Policy, s: State, key: string)
    requires AllCovered(p, s)
    ensures AllCovered(p, CollectStep(s, key))
  {
  }

  lemma StepKeepsCovered(p: Policy, s: State, step: Step)
    requires ValidPolicy(p) && EntitiesKeyed(p, s) && AllCovered(p, s)
    ensures EntitiesKeyed(p, Next(p, s, step)) && AllCovered(p, Next(p, s, step))
  {
    StepAgesEntities(p, s, step);
    if step.Source? {
      SourceKeepsCovered(p, s, step.relationship);
    } else if step.Destination? {
      DestinationKeepsCovered(p, s, step.update);
    } else if step.Link? {
      LinkKeepsCovered(p, s, step.update);
    } else if step.Collect? {
      CollectKeepsCovered(p, s, step.key);
    } else {
      OthersKeepCovered(p, s, Next(p, s, step));
    }
  }

  /** A key that no step touches stays tracked; `h` is what was recorded. */
  lemma AppendKeepsTracked(p: Policy, s: State, t: State, h: Happening, key: string)
    requires Tracked(p, s, key) && t.history == s.history + [h]
    requires key in t.relationships ==> key in s.relationships && t.relationships[key] == s.relationships[key]
    requires key in t.relationships && h.key == key ==>
               Answer(h) || (h.DeleteCalled? && !h.effective && h.at > s.relationships[key].expires)
    ensures Tracked(p, t, key)
  {
    LastUpdateAppend(s.history, h, key);
  }

  lemma LinkKeepsTracked(p: Policy, s: State, i: nat, key: string)
    requires Tracked(p, s, key) && EntitiesKeyed(p, s)
    ensures Tracked(p, StoreRelationship(p, s, i), key)
  {
    var t := StoreRelationship(p, s, i);
    if |t.history| > |s.history| {
      var h := t.history[|s.history|];
      assert t.history == s.history + [h];
      if key == h.key {
        LastUpdateAppend(s.history, h, key);
      } else {
        AppendKeepsTracked(p, s, t, h, key);
      }
    }
  }

  lemma StepKeepsTracked(p: Policy, s: State, step: Step)
    requires AllTracked(p, s) && EntitiesKeyed(p, s)
    ensures AllTracked(p, Next(p, s, step))
  {
    var t := Next(p, s, step);
    forall k ensures Tracked(p, t, k) {
      assert Tracked(p, s, k);
      if step.Link? {
        LinkKeepsTracked(p, s, step.update, k);
      } else if |t.history| > |s.history| {
        AppendKeepsTracked(p, s, t, t.history[|s.history|], k);
      }
    }
  }

  // ----- Every eviction has its reason -----

  /** The relationship that leaves the cache at index `i` does so at least the interval after the last
      update of its key, with nothing but late deletions in between. */
  ghost predicate Justified(p: Policy, history: seq<Happening>, i: nat)
    requires i < |history|
  {
    var key := history[i].key;
    var j := LastUpdate(history[..i], key);
    && j.Some?
    && history[j.value].at + p.interval <= history[i].at
    && Undisturbed(history, key, j.value, i, history[j.value].at + p.interval)
  }

  ghost predicate HistoryJustified(p: Policy, history: seq<Happening>) {
    forall i :: 0 <= i < |history| && history[i].Collected? ==> Justified(p, history, i)
  }

  /** `item` left the cache at index `i` of the history and still carries what
      its last update before that stored. */
  ghost predicate LeftAt(p: Policy, history: seq<Happening>, item: Evicted, i: nat) {
    && i < |history| && history[i].Collected? && history[i].key == item.key
    && Justified(p, history, i)
    && var u := history[LastUpdate(history[..i], item.key).value];
    && u.at + p.interval == item.expired && u.since == item.since
    && StoredFrom(p, item.stored, u.relationship)
  }

  ghost predicate Known(p: Policy, history: seq<Happening>, item: Evicted) {
    exists i: nat :: LeftAt(p, history, item, i)
  }

  ghost predicate EvictionsKnown(p: Policy, s: State) {
    forall n :: 0 <= n < |s.evicting| ==> Known(p, s.history, s.evicting[n])
  }

  lemma JustifiedStays(p: Policy, history: seq<Happening>, h: Happening, i: nat)
    requires i < |history|
    ensures Justified(p, history, i) ==> Justified(p, history + [h], i)
    ensures forall item :: LeftAt(p, history, item, i) ==> LeftAt(p, history + [h], item, i)
  {
    assert (history + [h])[..i] == history[..i];
  }

  /** One more happening leaves earlier reasons and evictions in place. */
  lemma AppendKeepsHistory(p: Policy, history: seq<Happening>, h: Happening, evicting: seq<Evicted>)
    requires HistoryJustified(p, history)
    requires forall n :: 0 <= n < |evicting| ==> Known(p, history, evicting[n])
    ensures forall i :: 0 <= i < |history| && history[i].Collected? ==> Justified(p, history + [h], i)
    ensures forall n :: 0 <= n < |evicting| ==> Known(p, history + [h], evicting[n])
  {
    forall i | 0 <= i < |history| && history[i].Collected? ensures Justified(p, history + [h], i) {
      JustifiedStays(p, history, h, i);
    }
    forall n | 0 <= n < |evicting| ensures Known(p, history + [h], evicting[n]) {
      var i: nat :| LeftAt(p, history, evicting[n], i);
      JustifiedStays(p, history, h, i);
      assert LeftAt(p, history + [h], evicting[n], i);
    }
  }

  /** What the cleanup takes out is due, by the tracking of its key. */
  lemma CollectIsJustified(p: Policy, s: State, key: string)
    requires Tracked(p, s, key) && key in s.relationships && s.relationships[key].expires <= s.now
    ensures var t := CollectStep(s, key);
      && |t.history| == |s.history| + 1 && |t.evicting| == |s.evicting| + 1
      && LeftAt(p, t.history, t.evicting[|s.evicting|], |s.history|)
  {
    assert CollectStep(s, key).history[..|s.history|] == s.history;
  }

  lemma CollectKeepsHistory(p: Policy, s: State, key: string)
    requires Tracked(p, s, key) && HistoryJustified(p, s.history) && EvictionsKnown(p, s)
    ensures var t := CollectStep(s, key); HistoryJustified(p, t.history) && EvictionsKnown(p, t)
  {
    if key in s.relationships && s.relationships[key].expires <= s.now {
      var t := CollectStep(s, key);
      AppendKeepsHistory(p, s.history, Collected(key, s.now), s.evicting);
      CollectIsJustified(p, s, key);
      assert Known(p, t.history, t.evicting[|s.evicting|]);
    }
  }

  lemma QuietAppendKeepsHistory(p: Policy, s: State, t: State, h: Happening)
    requires HistoryJustified(p, s.history) && EvictionsKnown(p, s)
    requires !h.Collected? && t.history == s.history + [h]
    requires forall n :: 0 <= n < |t.evicting| ==> t.evicting[n] in s.evicting
    ensures HistoryJustified(p, t.history) && EvictionsKnown(p, t)
  {
    AppendKeepsHistory(p, s.history, h, s.evicting);
  }

  lemma StepKeepsHistory(p: Policy, s: State, step: Step)
    requires AllTracked(p, s) && HistoryJustified(p, s.history) && EvictionsKnown(p, s)
    ensures var t := Next(p, s, step); HistoryJustified(p, t.history) && EvictionsKnown(p, t)
  {
    var t := Next(p, s, step);
    if step.Collect? {
      assert Tracked(p, s, step.key);
      CollectKeepsHistory(p, s, step.key);
    } else {
      assert forall n :: 0 <= n < |t.evicting| ==> t.evicting[n] in s.evicting;
      if |t.history| > |s.history| {
        QuietAppendKeepsHistory(p, s, t, t.history[|s.history|]);
      }
    }
  }

  // ----- Conservation -----

  function Insertions(history: seq<Happening>, key: string): nat {
    if history == [] then 0
    else
      var n := |history| - 1;
      var inserts := history[n].Updated? && history[n].key == key && history[n].inserted;
      Insertions(history[..n], key) + if inserts then 1 else 0
  }

  predicate Ends(h: Happening, key: string) {
    h.key == key && (h.Collected? || (h.DeleteCalled? && h.effective))
  }

  /** Effective deletions and evictions of a key. */
  function Endings(history: seq<Happening>, key: string): nat {
    if history == [] then 0
    else Endings(history[..|history| - 1], key) + if Ends(history[|history| - 1], key) then 1 else 0
  }

  /** Every insertion is ended once, by a deletion or by an eviction, or is still in the cache. */
  ghost predicate Conserved(s: State) {
    forall k :: Insertions(s.history, k) == Endings(s.history, k) + if k in s.relationships then 1 else 0
  }

  lemma CountsAppend(history: seq<Happening>, h: Happening, key: string)
    ensures Insertions(history + [h], key) ==
            Insertions(history, key) + if h.Updated? && h.key == key && h.inserted then 1 else 0
    ensures Endings(history + [h], key) == Endings(history, key) + if Ends(h, key) then 1 else 0
  {
    assert (history + [h])[..|history|] == history;
  }

  /** Whether a key is cached, after what `h` records. */
  ghost predicate Balances(s: State, t: State, h: Happening, key: string) {
    && (h.Updated? && h.key == key && h.inserted ==> key !in s.relationships)
    && (Ends(h, key) ==> key in s.relationships)
    && (key in t.relationships <==>
          !Ends(h, key) && (key in s.relationships || (h.Updated? && h.key == key && h.inserted)))
  }

  lemma AppendKeepsConserved(s: State, t: State, h: Happening)
    requires Conserved(s) && t.history == s.history + [h] && forall k :: Balances(s, t, h, k)
    ensures Conserved(t)
  {
    forall k ensures Insertions(t.history, k) == Endings(t.history, k) + if k in t.relationships then 1 else 0 {
      CountsAppend(s.history, h, k);
      assert Balances(s, t, h, k);
    }
  }

  lemma StepKeepsConserved(p: Policy, s: State, step: Step)
    requires Conserved(s)
    ensures Conserved(Next(p, s, step))
  {
    var t := Next(p, s, step);
    if |t.history| > |s.history| {
      AppendKeepsConserved(s, t, t.history[|s.history|]);
    }
  }

  // ----- Theorems over all runs -----

  ghost predicate Inv(p: Policy, s: State) {
    && EntitiesKeyed(p, s) && AllCovered(p, s) && AllTracked(p, s)
    && HistoryJustified(p, s.history) && EvictionsKnown(p, s)
    && Conserved(s)
  }

  lemma {:induction false} RunKeepsInv(p: Policy, s: State, steps: seq<Step>)
    requires ValidPolicy(p) && Inv(p, s)
    ensures Inv(p, Run(p, s, steps))
    decreases |steps|
  {
    if steps != [] {
      StepKeepsCovered(p, s, steps[0]);
      StepKeepsTracked(p, s, steps[0]);
      StepKeepsHistory(p, s, steps[0]);
      StepKeepsConserved(p, s, steps[0]);
      RunKeepsInv(p, Next(p, s, steps[0]), steps[1..]);
    }
  }

  /** In every run a relationship expires from the cache only when due and
      undeleted, and insertions, endings and cached relationships balance for
      each key. When its event is sent is the subject of ExpiryEvents. */
  lemma LifecycleConserved(p: Policy, now: int, steps: seq<Step>)
    requires ValidPolicy(p)
    ensures var s := Run(p, Init(now), steps); HistoryJustified(p, s.history) && Conserved(s)
  {
    RunKeepsInv(p, Init(now), steps);
  }

  /** The relationship as it was last updated before it left the cache. */
  ghost function LastForm(history: seq<Happening>, key: string, i: nat): Relationship
    requires i < |history| && LastUpdate(history[..i], key).Some?
  {
    history[LastUpdate(history[..i], key).value].relationship
  }

  // ----- Only entities of the run matter -----

  /** Both ends of every relationship whose update begins in `steps`. */
  ghost function EntitiesOf(steps: seq<Step>): set<Entity> {
    if steps == [] then {}
    else
      EntitiesOf(steps[1..]) +
      if steps[0].Source? then {steps[0].relationship.source, steps[0].relationship.destination} else {}
  }

  ghost predicate EndsIn(r: Relationship, known: set<Entity>) {
    r.source in known && r.destination in known
  }

  ghost predicate Within(s: State, known: set<Entity>) {
    && (forall h :: h in s.entities ==> s.entities[h].entity in known)
    && (forall i :: 0 <= i < |s.updating| ==> EndsIn(s.updating[i].relationship, known))
    && (forall i :: 0 <= i < |s.history| && s.history[i].Updated? ==> EndsIn(s.history[i].relationship, known))
  }

  lemma StepStaysWithin(p: Policy, s: State, step: Step, known: set<Entity>)
    requires Within(s, known) && (step.Source? ==> EndsIn(step.relationship, known))
    ensures Within(Next(p, s, step), known)
  {
    var t := Next(p, s, step);
    if step.Link? || step.GiveUp? {
      assert forall j :: 0 <= j < |t.updating| ==> t.updating[j] in s.updating;
    }
  }

  lemma {:induction false} RunStaysWithin(p: Policy, s: State, steps: seq<Step>, known: set<Entity>)
    requires Within(s, known) && EntitiesOf(steps) <= known
    ensures Within(Run(p, s, steps), known)
    decreases |steps|
  {
    if steps != [] {
      StepStaysWithin(p, s, steps[0], known);
      RunStaysWithin(p, Next(p, s, steps[0]), steps[1..], known);
    }
  }

  // ----- An expiring relationship finds its ends -----

  /** How long the update of an item took from covering its ends to linking them. */
  function TimeTaken(p: Policy, item: Evicted): int {
    item.expired - p.interval - item.since
  }

  function LagBound(p: Policy, item: Evicted): int {
    4 * p.interval + 5 * p.cleanup - TimeTaken(p, item)
  }

  lemma CallbackFindsEnds(p: Policy, s: State, item: Evicted, r: Relationship, known: set<Entity>)
    requires CollisionFreeOn(p.hash, known) && EntitiesKeyed(p, s) && Within(s, known) && EndsIn(r, known)
    requires s.evicting != [] && s.evicting[0] == item && s.sending.None?
    requires EndsCovered(p, s, item.stored, item.since) && s.now < item.since + p.entityTtl
    requires StoredFrom(p, item.stored, r)
    ensures CallbackStep(s) == s.(evicting := s.evicting[1..], sending := Some(Sending(item.key, r)))
  {
    EntityKeyIdentifies(p.hash, s.entities[item.stored.sourceHash].entity, r.source);
    EntityKeyIdentifies(p.hash, s.entities[item.stored.destHash].entity, r.destination);
  }

  /** Whatever else goes on, an event waits for the channel as it is. */
  lemma {:induction false} EventWaits(p: Policy, s: State, meanwhile: seq<Step>)
    requires s.sending.Some? && Send !in meanwhile
    ensures Run(p, s, meanwhile).sending == s.sending && Run(p, s, meanwhile).sent == s.sent
    decreases |meanwhile|
  {
    if meanwhile != [] {
      EventWaits(p, Next(p, s, meanwhile[0]), meanwhile[1..]);
    }
  }

  /** In every run, a callback whose lag is below four intervals and five
      cleanups, less the time the update took, finds both ends, and what it
      sends, whatever happens until then, is the relationship as last updated. */
  lemma TimelyEvictionIsSent(p: Policy, now: int, steps: seq<Step>, meanwhile: seq<Step>)
    requires ValidPolicy(p) && CollisionFreeOn(p.hash, EntitiesOf(steps)) && Send !in meanwhile
    requires var s := Run(p, Init(now), steps);
      s.evicting != [] && s.sending.None? && s.now - s.evicting[0].expired < LagBound(p, s.evicting[0])
    ensures var s := Run(p, Init(now), steps);
      exists i: nat :: LeftAt(p, s.history, s.evicting[0], i) &&
        SendStep(Run(p, CallbackStep(s), meanwhile)).sent ==
        s.sent + [LastForm(s.history, s.evicting[0].key, i)]
  {
    RunKeepsInv(p, Init(now), steps);
    RunStaysWithin(p, Init(now), steps, EntitiesOf(steps));
    var s := Run(p, Init(now), steps);
    var item := s.evicting[0];
    assert Known(p, s.history, item);
    var i: nat :| LeftAt(p, s.history, item, i);
    CallbackFindsEnds(p, s, item, LastForm(s.history, item.key, i), EntitiesOf(steps));
    EventWaits(p, CallbackStep(s), meanwhile);
  }

  /** The run `steps` takes out `r` and calls back at the exact lag bound, in vain. */
  ghost predicate LostAtBound(p: Policy, now: int, r: Relationship, taken: nat, steps: seq<Step>) {
    var s := Run(p, Init(now), steps);
    && |s.evicting| == 1 && StoredFrom(p, s.evicting[0].stored, r)
    && TimeTaken(p, s.evicting[0]) == taken
    && s.now - s.evicting[0].expired == LagBound(p, s.evicting[0])
    && CallbackStep(s) == s.(evicting := [], history := s.history + [Lost(s.evicting[0].key, s.now)])
  }

  /** The bound is exact, whatever time the update takes: at that very lag
      both ends may be gone. */
  lemma LaterEvictionMayBeLost(p: Policy, now: int, r: Relationship, taken: nat)
    requires ValidPolicy(p) && RelationshipKey(p, r).Some?
    requires taken <= 4 * p.interval + 5 * p.cleanup
    ensures exists steps :: LostAtBound(p, now, r, taken, steps)
  {
    var key, k := RelationshipKey(p, r).value, EntityKeys(p, r).value;
    var update := UpdateSteps(0, r, 0, taken);
    var rest := [Tick(p.entityTtl - taken)] + ([Collect(key)] + [Forget(k.source)]);
    var s := UpdateCall(p, Init(now), r, 0, taken);
    UpdateCallAlone(p, Init(now), r, 0, taken);
    RunConcat(p, Init(now), update, rest);
    var s1 := Next(p, s, Tick(p.entityTtl - taken));
    var s2 := Next(p, s1, Collect(key));
    RunFirst(p, s, Tick(p.entityTtl - taken), [Collect(key)] + [Forget(k.source)]);
    RunFirst(p, s1, Collect(key), [Forget(k.source)]);
    RunOne(p, s2, Forget(k.source));
    assert !FoundEntity(Next(p, s2, Forget(k.source)), k.source);
    assert LostAtBound(p, now, r, taken, update + rest);
  }

  /** A deletion takes effect exactly when it comes no later than the interval
      after the last update; a later one leaves the expiry to happen. */
  lemma DeletionEffectiveIffInTime(p: Policy, now: int, steps: seq<Step>, r: Relationship)
    requires ValidPolicy(p) && RelationshipKey(p, r).Some?
    requires var s := Run(p, Init(now), steps); RelationshipKey(p, r).value in s.relationships
    ensures var s, key := Run(p, Init(now), steps), RelationshipKey(p, r).value;
      && LastUpdate(s.history, key).Some?
      && (key !in DeleteStep(p, s, r).relationships <==>
            s.now <= s.history[LastUpdate(s.history, key).value].at + p.interval)
  {
    RunKeepsInv(p, Init(now), steps);
    var s, key := Run(p, Init(now), steps), RelationshipKey(p, r).value;
    assert Tracked(p, s, key);
  }

  /** A deletion can be called in vain: one tick after its time an entry that
      was not cleaned up yet stays, and expires although it was deleted. */
  lemma LateDeletionIsIgnored(p: Policy, now: int, r: Relationship)
    requires ValidPolicy(p) && RelationshipKey(p, r).Some?
    ensures var key := RelationshipKey(p, r).value;
      var s := Run(p, Init(now), UpdateSteps(0, r, 0, 0) + [Tick(p.interval + 1)]);
      var deleted := DeleteStep(p, s, r);
      && key in deleted.relationships
      && CollectStep(deleted, key).history == deleted.history + [Collected(key, s.now)]
  {
    UpdateCallAlone(p, Init(now), r, 0, 0);
    RunConcat(p, Init(now), UpdateSteps(0, r, 0, 0), [Tick(p.interval + 1)]);
    RunOne(p, UpdateCall(p, Init(now), r, 0, 0), Tick(p.interval + 1));
  }

  // ----- The storage itself -----

  /** Both caches, the clock, and the channel that expiry events go to. */
  class InternalStorage {
    const policy: Policy
    var now: int
    var entities: map<string, TimedEntity>
    var relationships: map<string, TimedRelationship>
    var evicting: seq<Evicted>
    var sent: seq<Relationship>
    ghost var history: seq<Happening>

    ghost function Value(): State
      reads this
    {
      State(now, [], entities, relationships, evicting, None, sent, history)
    }

    constructor (policy: Policy, now: int)
      ensures this.policy == policy && Value() == Init(now)
    {
      this.policy := policy;
      this.now := now;
      entities, relationships, evicting, sent, history := map[], map[], [], [], [];
    }

    /** The two entity writes, `first` apart. */
    method StoreEntities(r: Relationship, k: Keys, first: nat) returns (since: int)
      modifies this`now, this`entities
      ensures now == old(now) + first
      ensures entities == old(entities)[k.source := TimedEntity(r.source, old(now) + policy.entityTtl)]
                                       [k.dest := TimedEntity(r.destination, now + policy.entityTtl)]
      ensures since == if k.source == k.dest then now else old(now)
    {
      since := now;
      entities := entities[k.source := TimedEntity(r.source, now + policy.entityTtl)];
      now := now + first;
      if k.source == k.dest {
        since := now;
      }
      entities := entities[k.dest := TimedEntity(r.destination, now + policy.entityTtl)];
    }

    /** The relationship write, which an empty type prevents. */
    method StoreLink(r: Relationship, k: Keys, since: int) returns (key: Option<string>)
      modifies this`relationships, this`history
      ensures key == BuildRelationshipKey(r.kind, k.source, k.dest)
      ensures key.None? ==> relationships == old(relationships) && history == old(history)
      ensures key.Some? ==>
                && relationships == old(relationships)[key.value := TimedRelationship(
                     StoredRelationship(r.kind, k.source, k.dest), since, now + policy.interval)]
                && history == old(history) + [Updated(key.value, since, now, r, key.value !in old(relationships))]
    {
      key := BuildRelationshipKey(r.kind, k.source, k.dest);
      if key.Some? {
        history := history + [Updated(key.value, since, now, r, key.value !in relationships)];
        var stored := StoredRelationship(r.kind, k.source, k.dest);
        relationships := relationships[key.value := TimedRelationship(stored, since, now + policy.interval)];
      }
    }

    /** The three writes, `first` and `second` apart. */
    method StoreAll(r: Relationship, k: Keys, first: nat, second: nat) returns (key: Option<string>)
      modifies this
      ensures key == BuildRelationshipKey(r.kind, k.source, k.dest)
      ensures Value() == UpdatedAlone(policy, old(Value()), r, k, first, second)
    {
      var since := StoreEntities(r, k, first);
      now := now + second;
      key := StoreLink(r, k, since);
    }

    /** `first` and `second` pass between the three writes; by UpdateCallAlone
        this is a run of their three steps. */
    method Update(r: Relationship, first: nat, second: nat) returns (failed: bool)
      modifies this
      ensures EntityKeys(policy, r).None? ==> Value() == old(Value())
      ensures EntityKeys(policy, r).Some? ==>
                Value() == UpdatedAlone(policy, old(Value()), r, EntityKeys(policy, r).value, first, second)
      ensures failed == RelationshipKey(policy, r).None?
    {
      var sourceHash := BuildEntityKey(policy.hash, r.source);
      if sourceHash.None? {
        return true;
      }
      var destHash := BuildEntityKey(policy.hash, r.destination);
      if destHash.None? {
        return true;
      }
      var key := StoreAll(r, Keys(sourceHash.value, destHash.value), first, second);
      failed := key.None?;
    }

    method Delete(r: Relationship) returns (failed: bool)
      modifies this`relationships, this`history
      ensures Value() == DeleteStep(policy, old(Value()), r)
      ensures failed == RelationshipKey(policy, r).None?
    {
      var key := RelationshipKey(policy, r);
      if key.None? {
        return true;
      }
      var found := key.value in relationships && now <= relationships[key.value].expires;
      history := history + [DeleteCalled(key.value, now, found)];
      if found {
        relationships := relationships - {key.value};
      }
      failed := false;
    }

    /** The callback for the oldest relationship taken out of the cache; the
        channel takes its event after `blocked`. */
    method OnRelationshipEvict(blocked: nat)
      requires evicting != []
      modifies this`now, this`evicting, this`sent, this`history
      ensures var called := CallbackStep(old(Value()));
        Value() == if called.sending.None? then called else SendStep(Next(policy, called, Tick(blocked)))
    {
      var key, item := evicting[0].key, evicting[0].stored;
      evicting := evicting[1..];
      if item.sourceHash !in entities || entities[item.sourceHash].expires < now {
        history := history + [Lost(key, now)];
        return;
      }
      if item.destHash !in entities || entities[item.destHash].expires < now {
        history := history + [Lost(key, now)];
        return;
      }
      var event := Relationship(item.kind, entities[item.sourceHash].entity, entities[item.destHash].entity);
      now := now + blocked;
      sent := sent + [event];
      history := history + [Sent(key, now, event)];
    }
  }
}
