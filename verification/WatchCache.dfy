/**
 * The Kubernetes objects receiver in watch mode: a cache of four hashes per
 * object decides which list items and watch events become logs, is pruned on
 * every list, and is persisted after every list and every handled event.
 */
module WatchCache {
  import opened Outcomes
  import Text

  /** What is left of an object once managed fields, the resource version and
      all timestamps are gone, section by section and encoded. */
  datatype Sections = Sections(metadata: Option<string>, spec: Option<string>, status: Option<string>, other: string)

  /** `cleaned` is None for an object that cannot be encoded again. */
  datatype Object = Object(kind: string, namespace: string, name: string, cleaned: Option<Sections>)

  datatype Hashes = Hashes(metadata: string, spec: string, status: string, other: string)

  datatype EventType = Added | Modified | Deleted | Bookmark | Error

  /** `code` is the status code of an Error event; `obj` is None when the
      payload is not an unstructured object. */
  datatype Event = Event(kind: EventType, code: int, obj: Option<Object>)

  datatype Log = Log(
    kind: EventType, obj: Object, initialPoll: bool,
    metadataChanged: bool, specChanged: bool, statusChanged: bool, otherChanged: bool)

  datatype Disk = Blank | Corrupt | Saved(objects: map<string, Hashes>)

  datatype Config = Config(exclude: set<EventType>, hasStorage: bool, digest: string -> string)

  datatype State = State(objects: map<string, Hashes>, disk: Disk, sent: seq<Log>)

  const GONE := 410

  // ----- Keys and hashes -----

  function GetKey(o: Object): string {
    o.kind + ":" + o.namespace + "#" + o.name
  }

  /** Kinds hold no colon and namespaces no hash sign, so objects with
      different identities never share a cache entry. */
  lemma KeyIdentifiesObject(a: Object, b: Object)
    requires ':' !in a.kind && ':' !in b.kind
    requires '#' !in a.namespace && '#' !in b.namespace
    requires GetKey(a) == GetKey(b)
    ensures a.kind == b.kind && a.namespace == b.namespace && a.name == b.name
  {
    var x, y := a.namespace + "#" + a.name, b.namespace + "#" + b.name;
    assert a.kind + ":" + x == GetKey(a) && b.kind + ":" + y == GetKey(b);
    Text.CutAtFirst(a.kind, x, b.kind, y, ':');
    Text.CutAtFirst(a.namespace, a.name, b.namespace, b.name, '#');
  }

  function GetHash(digest: string -> string, section: Option<string>): string {
    match section
    case None => ""
    case Some(bytes) => digest(bytes)
  }

  function GetObjectHashes(digest: string -> string, o: Object): Option<Hashes> {
    match o.cleaned
    case None => None
    case Some(s) =>
      Some(Hashes(GetHash(digest, s.metadata), GetHash(digest, s.spec), GetHash(digest, s.status), digest(s.other)))
  }

  predicate Hashable(o: Object) {
    o.cleaned.Some?
  }

  function HashesOf(digest: string -> string, o: Object): Hashes
    requires Hashable(o)
  {
    GetObjectHashes(digest, o).value
  }

  // ----- One step on the state -----

  function ChangeLog(kind: EventType, o: Object, initialPoll: bool, before: Option<Hashes>, after: Hashes): Log {
    match before
    case None => Log(kind, o, initialPoll, true, true, true, true)
    case Some(h) =>
      Log(kind, o, initialPoll, h.metadata != after.metadata, h.spec != after.spec,
          h.status != after.status, h.other != after.other)
  }

  function Lookup(objects: map<string, Hashes>, key: string): Option<Hashes> {
    if key in objects then Some(objects[key]) else None
  }

  /** watchEventToLogData: refresh the cache entry, send a log unless nothing changed. */
  function ApplyEvent(c: Config, s: State, e: Event, initialPoll: bool): State {
    if e.obj.None? || !Hashable(e.obj.value) then s
    else
      var o := e.obj.value;
      var key, after := GetKey(o), HashesOf(c.digest, o);
      var before := Lookup(s.objects, key);
      State(
        if e.kind == Deleted then s.objects - {key} else s.objects[key := after],
        s.disk,
        if before == Some(after) then s.sent
        else s.sent + [ChangeLog(e.kind, o, initialPoll, before, after)])
  }

  function Save(c: Config, s: State): State {
    if c.hasStorage then s.(disk := Saved(s.objects)) else s
  }

  /** loadStorage merges what was saved into the live map. */
  function Load(c: Config, s: State): State {
    if !c.hasStorage then s
    else match s.disk
      case Blank => s
      case Corrupt => s.(objects := map[])
      case Saved(m) => s.(objects := s.objects + m)
  }

  function ListedEvent(s: State, item: Object): Event {
    Event(if GetKey(item) in s.objects then Modified else Added, 0, Some(item))
  }

  function ApplyItems(c: Config, s: State, items: seq<Object>): State
    decreases |items|
  {
    if items == [] then s
    else ApplyItems(c, ApplyEvent(c, s, ListedEvent(s, items[0]), true), items[1..])
  }

  function KeysOf(items: seq<Object>): set<string> {
    set i | 0 <= i < |items| :: GetKey(items[i])
  }

  function Prune(s: State, keep: set<string>): State {
    s.(objects := map k | k in s.objects && k in keep :: s.objects[k])
  }

  /** getResourceVersionAndUpdateCache once the list is in hand. */
  function Poll(c: Config, s: State, items: seq<Object>): State {
    Save(c, Prune(ApplyItems(c, Load(c, s), items), KeysOf(items)))
  }

  /** One unbroken iteration of the doWatch loop. */
  function Deliver(c: Config, s: State, e: Event): State {
    if e.kind in c.exclude then s else Save(c, ApplyEvent(c, s, e, false))
  }

  // ----- Whole runs -----

  datatype Step =
    | Listed(items: seq<Object>)
    | ListFailed
    | Watching(resourceVersion: string)
    | Delivered(event: Event)
    | Gone
    | Finished
    | Reboot

  function RunStep(c: Config, s: State, step: Step): State {
    match step
    case Listed(items) => Poll(c, s, items)
    case Delivered(e) => Deliver(c, s, e)
    case Reboot => s.(objects := map[])
    case _ => s
  }

  function Run(c: Config, s: State, steps: seq<Step>): State
    decreases |steps|
  {
    if steps == [] then s else Run(c, RunStep(c, s, steps[0]), steps[1..])
  }

  lemma RunFirst(c: Config, s: State, step: Step, rest: seq<Step>)
    ensures Run(c, s, [step] + rest) == Run(c, RunStep(c, s, step), rest)
  {
    assert ([step] + rest)[1..] == rest;
  }

  lemma RunConcat(c: Config, s: State, a: seq<Step>, b: seq<Step>)
    ensures Run(c, s, a + b) == Run(c, Run(c, s, a), b)
    decreases |a|
  {
    if a == [] {
      assert a + b == b;
    } else {
      assert (a + b)[1..] == a[1..] + b;
      RunConcat(c, RunStep(c, s, a[0]), a[1..], b);
    }
  }

  lemma RunOneMore(c: Config, s: State, steps: seq<Step>, step: Step)
    ensures Run(c, s, steps + [step]) == RunStep(c, Run(c, s, steps), step)
  {
    RunConcat(c, s, steps, [step]);
    assert [step][1..] == [];
  }

  // ----- The cache holds the hashes of the last log sent for each key -----

  /** The most recent log for `key`. */
  function LastLog(sent: seq<Log>, key: string): Option<Log>
    decreases |sent|
  {
    if sent == [] then None
    else
      var last := sent[|sent| - 1];
      if GetKey(last.obj) == key then Some(last) else LastLog(sent[..|sent| - 1], key)
  }

  /** The hashes of the object in it. */
  function LastSent(digest: string -> string, sent: seq<Log>, key: string): Option<Hashes> {
    match LastLog(sent, key)
    case None => None
    case Some(log) => GetObjectHashes(digest, log.obj)
  }

  ghost predicate MatchesLastSent(digest: string -> string, objects: map<string, Hashes>, sent: seq<Log>) {
    forall k :: k in objects ==> LastSent(digest, sent, k) == Some(objects[k])
  }

  ghost predicate Consistent(c: Config, s: State) {
    && MatchesLastSent(c.digest, s.objects, s.sent)
    && (c.hasStorage && s.disk.Saved? ==> MatchesLastSent(c.digest, s.disk.objects, s.sent))
    // between steps nothing lives in memory that is not also saved
    && (c.hasStorage && s.objects != map[] ==> s.disk == Saved(s.objects))
  }

  /** What holds also in the middle of a poll or of one event. */
  ghost predicate Live(c: Config, s: State) {
    MatchesLastSent(c.digest, s.objects, s.sent)
  }

  lemma LastSentAppend(digest: string -> string, sent: seq<Log>, log: Log, key: string)
    ensures LastSent(digest, sent + [log], key) ==
            if GetKey(log.obj) == key then GetObjectHashes(digest, log.obj) else LastSent(digest, sent, key)
  {
    assert (sent + [log])[..|sent|] == sent;
  }

  lemma ApplyEventLive(c: Config, s: State, e: Event, initialPoll: bool)
    requires Live(c, s)
    ensures Live(c, ApplyEvent(c, s, e, initialPoll))
  {
    if e.obj.Some? && Hashable(e.obj.value) {
      var o := e.obj.value;
      var key, after := GetKey(o), HashesOf(c.digest, o);
      var before := Lookup(s.objects, key);
      if before != Some(after) {
        var log := ChangeLog(e.kind, o, initialPoll, before, after);
        forall k | k in ApplyEvent(c, s, e, initialPoll).objects
          ensures LastSent(c.digest, s.sent + [log], k) == Some(ApplyEvent(c, s, e, initialPoll).objects[k])
        {
          LastSentAppend(c.digest, s.sent, log, k);
        }
      }
    }
  }

  lemma {:induction false} ApplyItemsLive(c: Config, s: State, items: seq<Object>)
    requires Live(c, s)
    ensures Live(c, ApplyItems(c, s, items))
    decreases |items|
  {
    if items != [] {
      var e := ListedEvent(s, items[0]);
      ApplyEventLive(c, s, e, true);
      ApplyItemsLive(c, ApplyEvent(c, s, e, true), items[1..]);
    }
  }

  lemma StepConsistent(c: Config, s: State, step: Step)
    requires Consistent(c, s)
    ensures Consistent(c, RunStep(c, s, step))
  {
    match step
    case Listed(items) =>
      ApplyItemsLive(c, Load(c, s), items);
    case Delivered(e) =>
      ApplyEventLive(c, s, e, false);
    case _ =>
  }

  /** Over every run of polls, events, restarts after 410 and process
      restarts, cache and saved copy hold the hashes of the last log per key. */
  lemma {:induction false} RunConsistent(c: Config, s: State, steps: seq<Step>)
    requires Consistent(c, s)
    ensures Consistent(c, Run(c, s, steps))
    decreases |steps|
  {
    if steps != [] {
      StepConsistent(c, s, steps[0]);
      RunConsistent(c, RunStep(c, s, steps[0]), steps[1..]);
    }
  }

  // ----- What a list does -----

  ghost predicate DistinctKeys(items: seq<Object>) {
    forall i, j :: 0 <= i < j < |items| ==> GetKey(items[i]) != GetKey(items[j])
  }

  /** The logs a list owes, decided item by item against the cache as it was
      before the list. */
  function OwedLogs(digest: string -> string, cached: map<string, Hashes>, items: seq<Object>): seq<Log> {
    if items == [] then []
    else
      var o := items[0];
      var rest := OwedLogs(digest, cached, items[1..]);
      if !Hashable(o) || Lookup(cached, GetKey(o)) == Some(HashesOf(digest, o)) then rest
      else
        var kind := if GetKey(o) in cached then Modified else Added;
        [ChangeLog(kind, o, true, Lookup(cached, GetKey(o)), HashesOf(digest, o))] + rest
  }

  lemma KeysOfFirst(items: seq<Object>)
    requires items != []
    ensures KeysOf(items) == {GetKey(items[0])} + KeysOf(items[1..])
  {
    forall i | 0 <= i < |items| ensures GetKey(items[i]) in {GetKey(items[0])} + KeysOf(items[1..]) {
      if i > 0 {
        assert GetKey(items[1..][i - 1]) in KeysOf(items[1..]);
      }
    }
    forall i | 0 <= i < |items[1..]| ensures GetKey(items[1..][i]) in KeysOf(items) {
      assert GetKey(items[i + 1]) in KeysOf(items);
    }
  }

  /** `after` is `before` with the hashes of the items that can be hashed. */
  ghost predicate Refreshed(
      digest: string -> string, before: map<string, Hashes>, after: map<string, Hashes>, items: seq<Object>) {
    && (forall i :: 0 <= i < |items| ==>
          Lookup(after, GetKey(items[i])) ==
          if Hashable(items[i]) then Some(HashesOf(digest, items[i])) else Lookup(before, GetKey(items[i])))
    && (forall k :: k !in KeysOf(items) ==> Lookup(after, k) == Lookup(before, k))
  }

  lemma RefreshedFirst(
      digest: string -> string, before: map<string, Hashes>, middle: map<string, Hashes>, after: map<string,
      Hashes>, items: seq<Object>)
    requires items != [] && DistinctKeys(items)
    requires Refreshed(digest, before, middle, items[..1]) && Refreshed(digest, middle, after, items[1..])
    ensures Refreshed(digest, before, after, items)
  {
    var o, rest := items[0], items[1..];
    assert items[..1] == [o] && KeysOf([o]) == {GetKey([o][0])};
    assert forall i :: 0 <= i < |rest| ==> rest[i] == items[i + 1] && GetKey(rest[i]) != GetKey(o);
    KeysOfFirst(items);
    forall i | 0 <= i < |items|
      ensures Lookup(after, GetKey(items[i])) ==
              if Hashable(items[i]) then Some(HashesOf(digest, items[i])) else Lookup(before, GetKey(items[i]))
    {
      if i > 0 {
        assert items[i] == rest[i - 1];
        assert GetKey(items[i]) !in KeysOf([o]);
      } else {
        assert GetKey(o) !in KeysOf(rest);
        assert [o][0] == o;
      }
    }
  }

  lemma ListedItemRefreshes(c: Config, s: State, o: Object)
    ensures var r := ApplyEvent(c, s, ListedEvent(s, o), true);
      r.sent == s.sent + OwedLogs(c.digest, s.objects, [o]) && Refreshed(c.digest, s.objects, r.objects, [o])
  {
    assert GetKey([o][0]) in KeysOf([o]);
    assert [o][1..] == [];
  }

  lemma {:induction false} OwedLogsFirst(
      digest: string -> string, cached: map<string, Hashes>, live: map<string, Hashes>, items: seq<Object>)
    requires items != [] && Lookup(live, GetKey(items[0])) == Lookup(cached, GetKey(items[0]))
    ensures OwedLogs(digest, cached, items) == OwedLogs(digest, live, [items[0]]) + OwedLogs(digest, cached, items[1..])
  {
    assert [items[0]][1..] == [];
  }

  /** Item by item against the live cache is the same as against the cache
      as it was before the list. */
  lemma {:induction false} ApplyItemsExact(c: Config, s: State, items: seq<Object>, cached: map<string, Hashes>)
    requires DistinctKeys(items)
    requires forall i :: 0 <= i < |items| ==> Lookup(s.objects, GetKey(items[i])) == Lookup(cached, GetKey(items[i]))
    ensures var r := ApplyItems(c, s, items);
      r.sent == s.sent + OwedLogs(c.digest, cached, items) && Refreshed(c.digest, s.objects, r.objects, items)
    decreases |items|
  {
    if items != [] {
      var o, rest := items[0], items[1..];
      var s1 := ApplyEvent(c, s, ListedEvent(s, o), true);
      ListedItemRefreshes(c, s, o);
      forall i | 0 <= i < |rest| ensures Lookup(s1.objects, GetKey(rest[i])) == Lookup(cached, GetKey(rest[i])) {
        assert rest[i] == items[i + 1] && GetKey(rest[i]) !in KeysOf([o]);
      }
      ApplyItemsExact(c, s1, rest, cached);
      OwedLogsFirst(c.digest, cached, s.objects, items);
      assert items[..1] == [o];
      RefreshedFirst(c.digest, s.objects, s1.objects, ApplyItems(c, s, items).objects, items);
    }
  }

  /** After a list the cache has listed keys only, each object that can be
      hashed is there with its own hashes, any other keeps what was cached, and
      the logs sent are those owed against the cache as loaded. */
  lemma RelistExact(c: Config, s: State, items: seq<Object>)
    requires DistinctKeys(items)
    ensures var cached, r := Load(c, s).objects, Poll(c, s, items);
      && r.sent == s.sent + OwedLogs(c.digest, cached, items)
      && r.objects.Keys <= KeysOf(items)
      && (forall i :: 0 <= i < |items| ==>
            Lookup(r.objects, GetKey(items[i])) ==
            if Hashable(items[i]) then Some(HashesOf(c.digest, items[i])) else Lookup(cached, GetKey(items[i])))
      && (c.hasStorage ==> r.disk == Saved(r.objects))
  {
    var loaded := Load(c, s);
    ApplyItemsExact(c, loaded, items, loaded.objects);
    PruneKeepsListed(ApplyItems(c, loaded, items), items);
  }

  lemma PruneKeepsListed(s: State, items: seq<Object>)
    ensures var r := Prune(s, KeysOf(items));
      && r.objects.Keys <= KeysOf(items)
      && forall i :: 0 <= i < |items| ==> Lookup(r.objects, GetKey(items[i])) == Lookup(s.objects, GetKey(items[i]))
  {
    forall i | 0 <= i < |items|
      ensures Lookup(Prune(s, KeysOf(items)).objects, GetKey(items[i])) == Lookup(s.objects, GetKey(items[i]))
    {
      assert GetKey(items[i]) in KeysOf(items);
    }
  }

  lemma {:induction false} NothingOwed(digest: string -> string, cached: map<string, Hashes>, items: seq<Object>)
    requires forall i :: 0 <= i < |items| && Hashable(items[i]) ==>
               Lookup(cached, GetKey(items[i])) == Some(HashesOf(digest, items[i]))
    ensures OwedLogs(digest, cached, items) == []
  {
    if items != [] {
      assert forall i :: 0 <= i < |items[1..]| ==> items[1..][i] == items[i + 1];
      NothingOwed(digest, cached, items[1..]);
    }
  }

  /** Listing the same objects again sends nothing and changes nothing. */
  lemma RelistIsSilent(c: Config, s: State, items: seq<Object>)
    requires DistinctKeys(items)
    ensures Poll(c, Poll(c, s, items), items) == Poll(c, s, items)
  {
    var r := Poll(c, s, items);
    RelistExact(c, s, items);
    RelistExact(c, r, items);
    assert Load(c, r).objects == r.objects;
    NothingOwed(c.digest, r.objects, items);
    SameWhenListed(Poll(c, r, items).objects, r.objects, items);
    ApplyItemsDisk(c, Load(c, r), items);
  }

  lemma SameWhenListed(a: map<string, Hashes>, b: map<string, Hashes>, items: seq<Object>)
    requires a.Keys <= KeysOf(items) && b.Keys <= KeysOf(items)
    requires forall i :: 0 <= i < |items| ==> Lookup(a, GetKey(items[i])) == Lookup(b, GetKey(items[i]))
    ensures a == b
  {
    forall k ensures Lookup(a, k) == Lookup(b, k) {
      if k in KeysOf(items) {
        var i :| 0 <= i < |items| && GetKey(items[i]) == k;
      }
    }
    SameLookups(a, b);
  }

  lemma SameLookups(a: map<string, Hashes>, b: map<string, Hashes>)
    requires forall k :: Lookup(a, k) == Lookup(b, k)
    ensures a == b
  {
    assert forall k :: k in a ==> Lookup(a, k) == Lookup(b, k);
    assert forall k :: k in b ==> Lookup(a, k) == Lookup(b, k);
  }

  lemma {:induction false} ApplyItemsDisk(c: Config, s: State, items: seq<Object>)
    ensures ApplyItems(c, s, items).disk == s.disk
    decreases |items|
  {
    if items != [] {
      ApplyItemsDisk(c, ApplyEvent(c, s, ListedEvent(s, items[0]), true), items[1..]);
    }
  }

  // ----- The cache follows the server -----

  /** The objects the server holds, as a list shows them. */
  ghost function ServerOf(items: seq<Object>): map<string, Object>
    requires DistinctKeys(items)
  {
    map i | 0 <= i < |items| :: GetKey(items[i]) := items[i]
  }

  ghost predicate AllHashable(server: map<string, Object>) {
    forall k :: k in server ==> Hashable(server[k])
  }

  ghost function HashImage(digest: string -> string, server: map<string, Object>): map<string, Hashes>
    requires AllHashable(server)
  {
    map k | k in server :: HashesOf(digest, server[k])
  }

  /** Bookmarks and errors report no change, whatever they carry. */
  predicate Reports(kind: EventType) {
    kind.Added? || kind.Modified? || kind.Deleted?
  }

  /** What an event says happened on the server. */
  ghost function ServerStep(server: map<string, Object>, e: Event): map<string, Object> {
    if e.obj.None? || !Reports(e.kind) then server
    else if e.kind == Deleted then server - {GetKey(e.obj.value)}
    else server[GetKey(e.obj.value) := e.obj.value]
  }

  ghost function ServerAfter(server: map<string, Object>, events: seq<Event>): map<string, Object>
    decreases |events|
  {
    if events == [] then server else ServerAfter(ServerStep(server, events[0]), events[1..])
  }

  /** An object added, modified or deleted must be hashable and not excluded;
      a bookmark or an error must be excluded or carry no object to cache. */
  ghost predicate Followed(c: Config, e: Event) {
    e.obj.Some? ==>
      if Reports(e.kind) then e.kind !in c.exclude && Hashable(e.obj.value)
      else e.kind in c.exclude || !Hashable(e.obj.value)
  }

  function Deliveries(events: seq<Event>): seq<Step> {
    seq(|events|, i requires 0 <= i < |events| => Delivered(events[i]))
  }

  lemma EventFollowsServer(c: Config, s: State, server: map<string, Object>, e: Event)
    requires AllHashable(server) && s.objects == HashImage(c.digest, server)
    requires c.hasStorage ==> s.disk == Saved(s.objects)
    requires Followed(c, e)
    ensures var next, r := ServerStep(server, e), Deliver(c, s, e);
      && AllHashable(next) && r.objects == HashImage(c.digest, next)
      && (c.hasStorage ==> r.disk == Saved(r.objects))
  {
  }

  /** The cache takes what a bookmark or an error carries for an object of the
      server; it follows the server exactly where that makes no difference. */
  lemma UnreportedFollowsIff(c: Config, s: State, server: map<string, Object>, e: Event)
    requires AllHashable(server) && s.objects == HashImage(c.digest, server) && !Reports(e.kind)
    ensures Deliver(c, s, e).objects == HashImage(c.digest, ServerStep(server, e)) <==>
            Followed(c, e) ||
            var o := e.obj.value;
            GetKey(o) in server && HashesOf(c.digest, server[GetKey(o)]) == HashesOf(c.digest, o)
  {
    var r := Deliver(c, s, e);
    if !Followed(c, e) {
      assert r.objects == s.objects[GetKey(e.obj.value) := HashesOf(c.digest, e.obj.value)];
      assert GetKey(e.obj.value) in r.objects;
    }
  }

  lemma {:induction false} EventsFollowServer(c: Config, s: State, server: map<string, Object>, events: seq<Event>)
    requires AllHashable(server) && s.objects == HashImage(c.digest, server)
    requires c.hasStorage ==> s.disk == Saved(s.objects)
    requires forall e :: e in events ==> Followed(c, e)
    ensures AllHashable(ServerAfter(server, events))
    ensures var r := Run(c, s, Deliveries(events));
      && r.objects == HashImage(c.digest, ServerAfter(server, events))
      && (c.hasStorage ==> r.disk == Saved(r.objects))
    decreases |events|
  {
    if events != [] {
      var e, rest := events[0], events[1..];
      var next := ServerStep(server, e);
      assert Deliveries(events)[1..] == Deliveries(rest);
      EventFollowsServer(c, s, server, e);
      EventsFollowServer(c, Deliver(c, s, e), next, rest);
    }
  }

  lemma ImageOfList(digest: string -> string, items: seq<Object>, objects: map<string, Hashes>)
    requires DistinctKeys(items)
    requires forall i :: 0 <= i < |items| ==> Hashable(items[i])
    requires objects.Keys <= KeysOf(items)
    requires forall i :: 0 <= i < |items| ==> Lookup(objects, GetKey(items[i])) == Some(HashesOf(digest, items[i]))
    ensures AllHashable(ServerOf(items))
    ensures objects == HashImage(digest, ServerOf(items))
  {
    var server := ServerOf(items);
    forall k | k in server || k in objects
      ensures k in server && Lookup(objects, k) == Some(HashesOf(digest, server[k]))
    {
      assert k in KeysOf(items);
      var i :| 0 <= i < |items| && GetKey(items[i]) == k;
      assert server[GetKey(items[i])] == items[i];
    }
  }

  /** From any state, a list followed by any unexcluded events leaves the
      cache (and its saved copy) equal to the hash image of the server. */
  lemma ListThenWatchFollowsServer(c: Config, s: State, items: seq<Object>, events: seq<Event>)
    requires DistinctKeys(items)
    requires forall i :: 0 <= i < |items| ==> Hashable(items[i])
    requires forall e :: e in events ==> Followed(c, e)
    ensures AllHashable(ServerAfter(ServerOf(items), events))
    ensures var r := Run(c, s, [Listed(items)] + Deliveries(events));
      && r.objects == HashImage(c.digest, ServerAfter(ServerOf(items), events))
      && (c.hasStorage ==> r.disk == Saved(r.objects))
  {
    var polled := Poll(c, s, items);
    RelistExact(c, s, items);
    ImageOfList(c.digest, items, polled.objects);
    EventsFollowServer(c, polled, ServerOf(items), events);
    RunFirst(c, s, Listed(items), Deliveries(events));
  }

  // ----- When an event is worth a log -----

  ghost function SectionText(section: Option<string>): set<string> {
    match section
    case None => {}
    case Some(bytes) => {bytes}
  }

  /** The encoded sections of an object. */
  ghost function TextsOf(o: Object): set<string> {
    match o.cleaned
    case None => {}
    case Some(s) => SectionText(s.metadata) + SectionText(s.spec) + SectionText(s.status) + {s.other}
  }

  ghost function TextsLogged(sent: seq<Log>): set<string> {
    set i, t | 0 <= i < |sent| && t in TextsOf(sent[i].obj) :: t
  }

  /** No collisions among the given texts, and no empty hash. */
  ghost predicate Distinguishes(digest: string -> string, texts: set<string>) {
    && (forall a, b :: a in texts && b in texts && digest(a) == digest(b) ==> a == b)
    && (forall a :: a in texts ==> digest(a) != "")
  }

  lemma SameHashIff(digest: string -> string, a: Option<string>, b: Option<string>, texts: set<string>)
    requires SectionText(a) + SectionText(b) <= texts && Distinguishes(digest, texts)
    ensures GetHash(digest, a) == GetHash(digest, b) <==> a == b
  {
    assert a.Some? ==> a.value in texts;
    assert b.Some? ==> b.value in texts;
  }

  lemma SameHashesIff(digest: string -> string, a: Object, b: Object, texts: set<string>)
    requires Hashable(a) && Hashable(b) && TextsOf(a) + TextsOf(b) <= texts && Distinguishes(digest, texts)
    ensures HashesOf(digest, a) == HashesOf(digest, b) <==> a.cleaned == b.cleaned
  {
    var x, y := a.cleaned.value, b.cleaned.value;
    SameHashIff(digest, x.metadata, y.metadata, texts);
    SameHashIff(digest, x.spec, y.spec, texts);
    SameHashIff(digest, x.status, y.status, texts);
    SameHashIff(digest, Some(x.other), Some(y.other), texts);
  }

  lemma {:induction false} LastLogIsLogged(sent: seq<Log>, key: string)
    ensures LastLog(sent, key).Some? ==> LastLog(sent, key).value in sent
  {
    if sent != [] {
      LastLogIsLogged(sent[..|sent| - 1], key);
    }
  }

  /** In every run, with a digest that tells the texts logged apart, an event
      is silent exactly when its key is cached and the object has the sections
      of the one in the most recent log for that key, whatever the type of the
      event: a deletion that shows nothing new is not logged. */
  lemma SilentIffUnchanged(c: Config, start: State, steps: seq<Step>, e: Event)
    requires Consistent(c, start) && e.kind !in c.exclude && e.obj.Some? && Hashable(e.obj.value)
    requires Distinguishes(c.digest, TextsOf(e.obj.value) + TextsLogged(Run(c, start, steps).sent))
    ensures var s, key := Run(c, start, steps), GetKey(e.obj.value);
      Deliver(c, s, e).sent == s.sent <==>
      key in s.objects && LastLog(s.sent, key).Some? && LastLog(s.sent, key).value.obj.cleaned == e.obj.value.cleaned
  {
    RunConsistent(c, start, steps);
    var s, o := Run(c, start, steps), e.obj.value;
    var key := GetKey(o);
    if key in s.objects {
      assert LastSent(c.digest, s.sent, key) == Some(s.objects[key]);
      var last := LastLog(s.sent, key).value;
      LastLogIsLogged(s.sent, key);
      var i :| 0 <= i < |s.sent| && s.sent[i] == last;
      assert TextsOf(s.sent[i].obj) <= TextsLogged(s.sent);
      SameHashesIff(c.digest, o, last.obj, TextsOf(o) + TextsLogged(s.sent));
    }
  }

  /** An object that is listed and then deleted unchanged leaves one log in
      all, of its addition. */
  lemma DeletionMayBeSilent(c: Config, o: Object)
    requires Hashable(o) && Deleted !in c.exclude
    ensures var s := Run(c, State(map[], Blank, []), [Listed([o]), Delivered(Event(Deleted, 0, Some(o)))]);
      s.sent == [Log(Added, o, true, true, true, true, true)] && s.objects == map[]
  {
    var start, e := State(map[], Blank, []), Event(Deleted, 0, Some(o));
    assert [Listed([o]), Delivered(e)] == [Listed([o])] + [Delivered(e)];
    RunFirst(c, start, Listed([o]), [Delivered(e)]);
    RunOneMore(c, Poll(c, start, [o]), [], Delivered(e));
    assert [] + [Delivered(e)] == [Delivered(e)];
    RelistExact(c, start, [o]);
    assert OwedLogs(c.digest, map[], [o][1..]) == [];
    assert Lookup(Poll(c, start, [o]).objects, GetKey([o][0])) == Some(HashesOf(c.digest, o));
    assert KeysOf([o]) == {GetKey([o][0])};
  }

  // ----- Control: list, watch, restart -----

  datatype ListOutcome =
    | ListError
    | NilList
    | Items(items: seq<Object>, resourceVersion: string, loadFails: bool)

  datatype Delivery = Data(event: Event) | ChannelClosed | Stopper

  /** What the cluster does during one iteration of startWatch. A script of
      deliveries that just ends stands for the channel being closed. */
  datatype Session = Session(list: ListOutcome, watchOpens: bool, deliveries: seq<Delivery>)

  predicate Unset(resourceVersion: string) {
    resourceVersion == "" || resourceVersion == "0"
  }

  predicate IsGone(e: Event) {
    e.kind == Error && e.code == GONE
  }

  /** The resource version to watch from, if any. */
  function StartVersion(c: Config, resourceVersion: string, list: ListOutcome): Option<string> {
    if !Unset(resourceVersion) then Some(resourceVersion)
    else if !list.Items? || (c.hasStorage && list.loadFails) then None
    else if Unset(list.resourceVersion) then Some("1")
    else Some(list.resourceVersion)
  }

  function ListTrace(c: Config, resourceVersion: string, list: ListOutcome): seq<Step> {
    if !Unset(resourceVersion) then []
    else if !list.Items? || (c.hasStorage && list.loadFails) then [ListFailed]
    else [Listed(list.items)]
  }

  /** The steps of one doWatch; its last one is Gone when a restart is due. */
  function WatchTrace(deliveries: seq<Delivery>): seq<Step> {
    if deliveries == [] || !deliveries[0].Data? then [Finished]
    else if IsGone(deliveries[0].event) then [Gone]
    else [Delivered(deliveries[0].event)] + WatchTrace(deliveries[1..])
  }

  /** The steps of one session that come after the watch is asked for. */
  function AfterWatching(session: Session): seq<Step> {
    if session.watchOpens then WatchTrace(session.deliveries) else [Finished]
  }

  function SessionTrace(c: Config, resourceVersion: string, session: Session): seq<Step> {
    var version := StartVersion(c, resourceVersion, session.list);
    ListTrace(c, resourceVersion, session.list) +
    if version.None? then []
    else [Watching(version.value)] + AfterWatching(session)
  }

  predicate Restarts(trace: seq<Step>) {
    trace != [] && trace[|trace| - 1].Gone?
  }

  /** Everything startWatch does for a cluster behaving as scripted. */
  function FullTrace(c: Config, resourceVersion: string, sessions: seq<Session>): seq<Step>
    decreases |sessions|
  {
    if sessions == [] then []
    else
      var trace := SessionTrace(c, resourceVersion, sessions[0]);
      if Restarts(trace) then trace + FullTrace(c, "", sessions[1..]) else trace
  }

  /** Each 410 is answered by a list, and every watch but one from a
      configured version at the very start comes right after a list. */
  ghost predicate RelistsFirst(trace: seq<Step>) {
    && (forall i :: 0 <= i < |trace| - 1 && trace[i].Gone? ==> trace[i + 1].Listed? || trace[i + 1].ListFailed?)
    && (forall i :: 0 < i < |trace| && trace[i].Watching? ==> trace[i - 1].Listed?)
  }

  lemma {:induction false} WatchTraceShape(deliveries: seq<Delivery>)
    ensures var w := WatchTrace(deliveries);
      && w != []
      && (forall i :: 0 <= i < |w| ==> !w[i].Watching? && !w[i].Listed? && !w[i].ListFailed?)
      && (forall i :: 0 <= i < |w| - 1 ==> w[i].Delivered?)
  {
    if deliveries != [] && deliveries[0].Data? && !IsGone(deliveries[0].event) {
      WatchTraceShape(deliveries[1..]);
    }
  }

  lemma SessionRelistsFirst(c: Config, resourceVersion: string, session: Session)
    ensures var t := SessionTrace(c, resourceVersion, session);
      && t != []
      && RelistsFirst(t)
      && (Unset(resourceVersion) ==> t[0].Listed? || t[0].ListFailed?)
      && (!Unset(resourceVersion) ==> t[0].Watching?)
  {
    WatchTraceShape(session.deliveries);
  }

  lemma RelistsFirstJoins(t: seq<Step>, rest: seq<Step>)
    requires RelistsFirst(t) && RelistsFirst(rest)
    requires rest != [] ==> rest[0].Listed? || rest[0].ListFailed?
    ensures RelistsFirst(t + rest)
  {
    var all := t + rest;
    forall i | 0 <= i < |all| - 1 && all[i].Gone? ensures all[i + 1].Listed? || all[i + 1].ListFailed? {
      if i >= |t| {
        assert all[i] == rest[i - |t|] && all[i + 1] == rest[i + 1 - |t|];
      }
    }
    forall i | 0 < i < |all| && all[i].Watching? ensures all[i - 1].Listed? {
      if i > |t| {
        assert all[i] == rest[i - |t|] && all[i - 1] == rest[i - 1 - |t|];
      }
    }
  }

  lemma FullTraceStarts(c: Config, sessions: seq<Session>)
    ensures var t := FullTrace(c, "", sessions); t != [] ==> t[0].Listed? || t[0].ListFailed?
  {
    if sessions != [] {
      SessionRelistsFirst(c, "", sessions[0]);
    }
  }

  lemma {:induction false} GoneLeadsToRelist(c: Config, resourceVersion: string, sessions: seq<Session>)
    ensures RelistsFirst(FullTrace(c, resourceVersion, sessions))
    decreases |sessions|
  {
    if sessions != [] {
      SessionRelistsFirst(c, resourceVersion, sessions[0]);
      GoneLeadsToRelist(c, "", sessions[1..]);
      FullTraceStarts(c, sessions[1..]);
      RelistsFirstJoins(SessionTrace(c, resourceVersion, sessions[0]), FullTrace(c, "", sessions[1..]));
    }
  }

  /** What the loop has yet to do before its turn `i`. */
  ghost function Rest(
      c: Config, cancelled: bool, resourceVersion: string, sessions: seq<Session>, i: nat): seq<Step>
    requires i <= |sessions|
  {
    if cancelled then [] else FullTrace(c, resourceVersion, sessions[i..])
  }

  lemma LoopTurn(c: Config, resourceVersion: string, sessions: seq<Session>, i: nat, before: seq<Step>)
    requires i < |sessions|
    ensures var turn := SessionTrace(c, resourceVersion, sessions[i]);
      before + turn + Rest(c, !Restarts(turn), "", sessions, i + 1) ==
      before + Rest(c, false, resourceVersion, sessions, i)
  {
    var turn := SessionTrace(c, resourceVersion, sessions[i]);
    assert sessions[i..][0] == sessions[i] && sessions[i..][1..] == sessions[i + 1..];
    assert before + turn + Rest(c, !Restarts(turn), "", sessions, i + 1) ==
           before + (turn + Rest(c, !Restarts(turn), "", sessions, i + 1));
  }

  lemma LastOfBoth(a: seq<Step>, b: seq<Step>)
    requires b != []
    ensures (a + b)[|a + b| - 1] == b[|b| - 1]
  {
  }

  lemma SessionRestarts(c: Config, resourceVersion: string, session: Session)
    requires StartVersion(c, resourceVersion, session.list).Some?
    ensures Restarts(SessionTrace(c, resourceVersion, session)) == Restarts(AfterWatching(session))
  {
    WatchTraceShape(session.deliveries);
  }

  lemma FailedSession(c: Config, resourceVersion: string, session: Session)
    requires StartVersion(c, resourceVersion, session.list).None?
    ensures SessionTrace(c, resourceVersion, session) == ListTrace(c, resourceVersion, session.list)
    ensures !Restarts(SessionTrace(c, resourceVersion, session))
  {
  }

  // ----- The receiver itself -----

  /** The live receiver: the hash cache, the storage extension's copy of it,
      and everything handed to the consumer so far. */
  class Receiver {
    const config: Config
    var objects: map<string, Hashes>
    var disk: Disk
    var sent: seq<Log>
    ghost const origin: State
    ghost var trace: seq<Step> // the calls and deliveries so far

    ghost function Value(): State
      reads this
    {
      State(objects, disk, sent)
    }

    /** Between calls the state is the run of all that happened. */
    ghost predicate Valid()
      reads this
    {
      Value() == Run(config, origin, trace)
    }

    /** A new process finds what an earlier one saved. */
    constructor (config: Config, disk: Disk, sent: seq<Log>)
      ensures this.config == config && Value() == State(map[], disk, sent)
      ensures Valid() && origin == Value() && trace == []
    {
      this.config := config;
      this.objects := map[];
      this.disk := disk;
      this.sent := sent;
      this.origin := State(map[], disk, sent);
      this.trace := [];
    }

    method WatchEventToLogData(event: Event, initialPoll: bool) returns (failed: bool)
      modifies this`objects, this`sent
      ensures Value() == ApplyEvent(config, old(Value()), event, initialPoll)
      ensures failed <==> event.obj.None? || !Hashable(event.obj.value)
    {
      if event.obj.None? {
        return true;
      }
      var key := GetKey(event.obj.value);
      var hashes := GetObjectHashes(config.digest, event.obj.value);
      if hashes.None? {
        return true;
      }
      failed := false;
      var metadataChanged, specChanged, statusChanged, otherChanged := true, true, true, true;
      if key in objects {
        var oldHashes := objects[key];
        metadataChanged := oldHashes.metadata != hashes.value.metadata;
        specChanged := oldHashes.spec != hashes.value.spec;
        statusChanged := oldHashes.status != hashes.value.status;
        otherChanged := oldHashes.other != hashes.value.other;
      }
      objects := objects[key := hashes.value];
      if event.kind == Deleted {
        objects := objects - {key};
      }
      if !metadataChanged && !specChanged && !statusChanged && !otherChanged {
        return;
      }
      sent := sent + [Log(
        event.kind, event.obj.value, initialPoll, metadataChanged, specChanged, statusChanged, otherChanged)];
    }

    method SaveStorage()
      modifies this`disk
      ensures Value() == Save(config, old(Value()))
    {
      if config.hasStorage {
        disk := Saved(objects);
      }
    }

    method LoadStorage(readFails: bool) returns (failed: bool)
      modifies this`objects
      ensures failed == (config.hasStorage && readFails)
      ensures Value() == if failed then old(Value()) else Load(config, old(Value()))
      ensures failed || !config.hasStorage || disk.Blank? ==> objects == old(objects)
      ensures !failed && config.hasStorage && disk.Corrupt? ==> objects == map[]
      ensures !failed && config.hasStorage && disk.Saved? ==>
        forall k :: Lookup(objects, k) == if k in disk.objects then Some(disk.objects[k]) else old(Lookup(objects, k))
    {
      if !config.hasStorage {
        return false;
      }
      if readFails {
        return true;
      }
      failed := false;
      if disk.Saved? {
        objects := objects + disk.objects;
      } else if disk.Corrupt? {
        objects := map[];
      }
    }

    /** Delete every cached key that was not listed, in whatever order the map yields them. */
    method PruneStorage(existing: set<string>)
      modifies this`objects
      ensures Value() == Prune(old(Value()), existing)
    {
      var todo := objects.Keys;
      while todo != {}
        invariant todo <= old(objects.Keys)
        invariant objects == map k | k in old(objects) && (k in todo || k in existing) :: old(objects)[k]
        decreases todo
      {
        var key :| key in todo;
        todo := todo - {key};
        if key !in existing {
          objects := objects - {key};
        }
      }
    }

    /** What is done with a list once storage is loaded. */
    method UpdateCache(items: seq<Object>)
      modifies this`objects, this`sent, this`disk
      ensures Value() == Save(config, Prune(ApplyItems(config, old(Value()), items), KeysOf(items)))
    {
      var existing: set<string> := {};
      var i := 0;
      while i < |items|
        invariant 0 <= i <= |items|
        invariant existing == KeysOf(items[..i])
        invariant ApplyItems(config, Value(), items[i..]) == ApplyItems(config, old(Value()), items)
      {
        var item := items[i];
        var key := GetKey(item);
        existing := existing + {key};
        var event := Event(if key in objects then Modified else Added, 0, Some(item));
        assert items[i..][1..] == items[i + 1..];
        var _ := WatchEventToLogData(event, true);
        i := i + 1;
        KeysOfSnoc(items, i);
      }
      assert items[..i] == items;
      PruneStorage(existing);
      SaveStorage();
    }

    method GetResourceVersionAndUpdateCache(resourceVersion: string, list: ListOutcome)
      returns (version: Option<string>)
      requires Valid()
      modifies this
      ensures Valid() && trace == old(trace) + ListTrace(config, resourceVersion, list)
      ensures version == StartVersion(config, resourceVersion, list)
      ensures resourceVersion != "" && resourceVersion != "0" ==>
        version == Some(resourceVersion) && trace == old(trace)
      ensures resourceVersion == "" || resourceVersion == "0" ==>
        if !list.Items? || (config.hasStorage && list.loadFails)
        then version == None && trace == old(trace) + [ListFailed]
        else
          && trace == old(trace) + [Listed(list.items)]
          && version == Some(if list.resourceVersion == "" || list.resourceVersion == "0" then "1"
                             else list.resourceVersion)
    {
      if !Unset(resourceVersion) {
        return Some(resourceVersion);
      }
      if !list.Items? {
        RunOneMore(config, origin, trace, ListFailed);
        trace := trace + [ListFailed];
        return None;
      }
      var failed := LoadStorage(list.loadFails);
      if failed {
        RunOneMore(config, origin, trace, ListFailed);
        trace := trace + [ListFailed];
        return None;
      }
      RunOneMore(config, origin, trace, Listed(list.items));
      UpdateCache(list.items);
      trace := trace + [Listed(list.items)];
      version := Some(if Unset(list.resourceVersion) then "1" else list.resourceVersion);
    }

    /** Returns true when watching is over, false when it must be restarted. */
    method DoWatch(deliveries: seq<Delivery>) returns (done: bool)
      requires Valid()
      modifies this
      ensures Valid() && trace == old(trace) + WatchTrace(deliveries)
      ensures done == !Restarts(WatchTrace(deliveries))
    {
      WatchTraceShape(deliveries);
      var i := 0;
      while i < |deliveries|
        invariant 0 <= i <= |deliveries|
        invariant Valid() && trace + WatchTrace(deliveries[i..]) == old(trace) + WatchTrace(deliveries)
      {
        var delivery := deliveries[i];
        assert deliveries[i..][0] == delivery && deliveries[i..][1..] == deliveries[i + 1..];
        if delivery.Data? && IsGone(delivery.event) {
          RunOneMore(config, origin, trace, Gone);
          trace := trace + [Gone];
          LastOfBoth(old(trace), WatchTrace(deliveries));
          return false;
        }
        if !delivery.Data? {
          RunOneMore(config, origin, trace, Finished);
          trace := trace + [Finished];
          LastOfBoth(old(trace), WatchTrace(deliveries));
          return true;
        }
        RunOneMore(config, origin, trace, Delivered(delivery.event));
        if delivery.event.kind !in config.exclude {
          var _ := WatchEventToLogData(delivery.event, false);
          SaveStorage();
        }
        trace := trace + [Delivered(delivery.event)];
        i := i + 1;
      }
      RunOneMore(config, origin, trace, Finished);
      trace := trace + [Finished];
      LastOfBoth(old(trace), WatchTrace(deliveries));
      done := true;
    }

    /** One iteration of the watch loop. */
    method ListAndWatch(resourceVersion: string, session: Session) returns (done: bool)
      requires Valid()
      modifies this
      ensures Valid() && trace == old(trace) + SessionTrace(config, resourceVersion, session)
      ensures done == !Restarts(SessionTrace(config, resourceVersion, session))
    {
      var version := GetResourceVersionAndUpdateCache(resourceVersion, session.list);
      if version.None? {
        FailedSession(config, resourceVersion, session);
        return true;
      }
      SessionRestarts(config, resourceVersion, session);
      RunOneMore(config, origin, trace, Watching(version.value));
      trace := trace + [Watching(version.value)];
      if session.watchOpens {
        done := DoWatch(session.deliveries);
      } else {
        RunOneMore(config, origin, trace, Finished);
        trace := trace + [Finished];
        done := true;
      }
    }

    /** The loop itself. */
    method WatchLoop(resourceVersion: string, sessions: seq<Session>)
      requires Valid()
      modifies this
      ensures Valid() && trace == old(trace) + FullTrace(config, resourceVersion, sessions)
    {
      var configured := resourceVersion;
      var i := 0;
      var cancelled := false;
      while i < |sessions| && !cancelled
        invariant 0 <= i <= |sessions|
        invariant Valid()
        invariant trace + Rest(config, cancelled, configured, sessions, i) ==
                  old(trace) + FullTrace(config, resourceVersion, sessions)
      {
        LoopTurn(config, configured, sessions, i, trace);
        cancelled := ListAndWatch(configured, sessions[i]);
        configured := "";
        i := i + 1;
      }
    }

    /** The whole watch loop: it lists, watches and handles events in the order
        of the full trace, so that a list answers every 410; what it leaves
        behind is the run of that trace, and a consistent receiver stays
        consistent. */
    method StartWatch(resourceVersion: string, sessions: seq<Session>)
      requires Valid()
      modifies this
      ensures Valid() && trace == old(trace) + FullTrace(config, resourceVersion, sessions)
      ensures RelistsFirst(FullTrace(config, resourceVersion, sessions))
      ensures Value() == Run(config, old(Value()), FullTrace(config, resourceVersion, sessions))
      ensures old(Consistent(config, Value())) ==> Consistent(config, Value())
    {
      WatchLoop(resourceVersion, sessions);
      GoneLeadsToRelist(config, resourceVersion, sessions);
      RunConcat(config, origin, old(trace), FullTrace(config, resourceVersion, sessions));
      if old(Consistent(config, Value())) {
        RunConsistent(config, old(Value()), FullTrace(config, resourceVersion, sessions));
      }
    }
  }

  lemma KeysOfSnoc(items: seq<Object>, i: int)
    requires 0 < i <= |items|
    ensures KeysOf(items[..i]) == KeysOf(items[..i - 1]) + {GetKey(items[i - 1])}
  {
    forall k | k in KeysOf(items[..i]) ensures k in KeysOf(items[..i - 1]) + {GetKey(items[i - 1])} {
      var j :| 0 <= j < i && GetKey(items[..i][j]) == k;
      if j < i - 1 {
        assert GetKey(items[..i - 1][j]) == k;
      }
    }
    forall k | k in KeysOf(items[..i - 1]) ensures k in KeysOf(items[..i]) {
      var j :| 0 <= j < i - 1 && GetKey(items[..i - 1][j]) == k;
      assert GetKey(items[..i][j]) == k;
    }
    assert items[..i][i - 1] == items[i - 1];
  }
}
