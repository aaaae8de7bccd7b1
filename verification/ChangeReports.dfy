/**
 * What the watch receiver reports, told from what it was shown: the logs of a
 * list and of an event follow from the last log of each known key, and with a
 * storage client a new process goes on where the old one stopped.
 */
module ChangeReports {
  import opened Outcomes
  import opened WatchCache

  // ----- A list after a restart -----

  /** `whole` has every live and every saved key; a saved entry wins. */
  ghost predicate SavedWins(live: map<string, Hashes>, saved: map<string, Hashes>, whole: map<string, Hashes>) {
    && (forall k :: k in whole <==> k in live || k in saved)
    && (forall k :: k in saved ==> k in whole && whole[k] == saved[k])
    && (forall k :: k in live && k !in saved ==> k in whole && whole[k] == live[k])
  }

  /** A list owes what differs from the live entries with the saved ones over
      them; without a storage client, from the live entries alone. */
  lemma ListOwes(c: Config, s: State, items: seq<Object>, whole: map<string, Hashes>)
    requires DistinctKeys(items)
    requires if c.hasStorage && s.disk.Saved? then SavedWins(s.objects, s.disk.objects, whole)
             else whole == if c.hasStorage && s.disk.Corrupt? then map[] else s.objects
    ensures Poll(c, s, items).sent == s.sent + OwedLogs(c.digest, whole, items)
  {
    RelistExact(c, s, items);
    assert Load(c, s).objects == whole;
  }

  /** A new process owes what differs from what an earlier one saved. */
  lemma RestartOwes(c: Config, s: State, items: seq<Object>)
    requires DistinctKeys(items) && c.hasStorage && s.objects == map[] && s.disk.Saved?
    ensures Poll(c, s, items).sent == s.sent + OwedLogs(c.digest, s.disk.objects, items)
  {
    ListOwes(c, s, items, s.disk.objects);
  }

  /** With a storage client a restart before a list is invisible, wherever in a
      run it happens: the list sends, caches and saves the same. */
  lemma RestartIsInvisible(c: Config, start: State, steps: seq<Step>, items: seq<Object>)
    requires Consistent(c, start) && c.hasStorage
    ensures Run(c, start, steps + [Reboot, Listed(items)]) == Run(c, start, steps + [Listed(items)])
  {
    RunConsistent(c, start, steps);
    assert steps + [Reboot, Listed(items)] == steps + [Reboot] + [Listed(items)];
    RunOneMore(c, start, steps, Reboot);
    RunOneMore(c, start, steps + [Reboot], Listed(items));
    RunOneMore(c, start, steps, Listed(items));
    LoadsTheSame(c, Run(c, start, steps));
  }

  lemma LoadsTheSame(c: Config, s: State)
    requires Consistent(c, s) && c.hasStorage
    ensures Load(c, RunStep(c, s, Reboot)) == Load(c, s)
  {
    if s.objects != map[] {
      assert s.objects + s.objects == s.objects && map[] + s.objects == s.objects;
    }
  }

  /** A process that lists what an earlier one listed sends nothing again. */
  lemma RestartIsSilent(c: Config, start: State, items: seq<Object>)
    requires Consistent(c, start) && c.hasStorage && DistinctKeys(items)
    ensures Run(c, start, [Listed(items), Reboot, Listed(items)]) == Run(c, start, [Listed(items)])
  {
    assert [Listed(items), Reboot, Listed(items)] == [Listed(items)] + [Reboot, Listed(items)];
    RestartIsInvisible(c, start, [Listed(items)], items);
    RunOneMore(c, start, [], Listed(items));
    RunOneMore(c, start, [Listed(items)], Listed(items));
    assert [] + [Listed(items)] == [Listed(items)];
    RelistIsSilent(c, start, items);
  }

  // ----- What each log says -----

  /** What is due for an object shown, when the last log of its key, if the key
      is known, showed the sections `was`: nothing if no section differs. */
  function Due(kind: EventType, o: Object, initialPoll: bool, was: Option<Sections>): seq<Log> {
    match (was, o.cleaned)
    case (_, None) => []
    case (None, Some(_)) => [Log(kind, o, initialPoll, true, true, true, true)]
    case (Some(a), Some(b)) =>
      if a == b then []
      else [Log(kind, o, initialPoll, a.metadata != b.metadata, a.spec != b.spec, a.status != b.status,
                a.other != b.other)]
  }

  /** The sections last logged for a key, if the key is known. */
  function LastShown(known: set<string>, sent: seq<Log>, key: string): Option<Sections> {
    match LastLog(sent, key)
    case None => None
    case Some(log) => if key in known then log.obj.cleaned else None
  }

  lemma SameSections(digest: string -> string, a: Object, b: Object, texts: set<string>)
    requires Hashable(a) && Hashable(b) && TextsOf(a) + TextsOf(b) <= texts && Distinguishes(digest, texts)
    ensures var x, y, h, k := a.cleaned.value, b.cleaned.value, HashesOf(digest, a), HashesOf(digest, b);
      && (h.metadata == k.metadata <==> x.metadata == y.metadata)
      && (h.spec == k.spec <==> x.spec == y.spec)
      && (h.status == k.status <==> x.status == y.status)
      && (h.other == k.other <==> x.other == y.other)
  {
    var x, y := a.cleaned.value, b.cleaned.value;
    SameHashIff(digest, x.metadata, y.metadata, texts);
    SameHashIff(digest, x.spec, y.spec, texts);
    SameHashIff(digest, x.status, y.status, texts);
    SameHashIff(digest, Some(x.other), Some(y.other), texts);
  }

  lemma LoggedTexts(sent: seq<Log>, key: string)
    requires LastLog(sent, key).Some?
    ensures TextsOf(LastLog(sent, key).value.obj) <= TextsLogged(sent)
  {
    LastLogIsLogged(sent, key);
    var i :| 0 <= i < |sent| && sent[i] == LastLog(sent, key).value;
    assert TextsOf(sent[i].obj) <= TextsLogged(sent);
  }

  /** One object shown to a cache that matches the logs sent. */
  lemma ShownOnce(
      digest: string -> string, cached: map<string, Hashes>, sent: seq<Log>, kind: EventType, o: Object,
      initialPoll: bool)
    requires MatchesLastSent(digest, cached, sent) && Hashable(o)
    requires Distinguishes(digest, TextsOf(o) + TextsLogged(sent))
    ensures var key, after := GetKey(o), HashesOf(digest, o);
      Due(kind, o, initialPoll, LastShown(cached.Keys, sent, key)) ==
      if Lookup(cached, key) == Some(after) then [] else [ChangeLog(kind, o, initialPoll, Lookup(cached, key), after)]
  {
    var key := GetKey(o);
    if key in cached {
      assert LastSent(digest, sent, key) == Some(cached[key]);
      LoggedTexts(sent, key);
      SameSections(digest, LastLog(sent, key).value.obj, o, TextsOf(o) + TextsLogged(sent));
    }
  }

  /** In every run, with a digest that tells the texts apart, an event adds the
      log that the sections last logged for its key call for: of its own type,
      with a flag for each section that differs. Excluded events and objects
      that cannot be encoded add none. */
  lemma EventReports(c: Config, start: State, steps: seq<Step>, e: Event)
    requires Consistent(c, start) && e.obj.Some?
    requires Distinguishes(c.digest, TextsOf(e.obj.value) + TextsLogged(Run(c, start, steps).sent))
    ensures var s, o := Run(c, start, steps), e.obj.value;
      Run(c, start, steps + [Delivered(e)]).sent ==
      s.sent + if e.kind in c.exclude then []
               else Due(e.kind, o, false, LastShown(s.objects.Keys, s.sent, GetKey(o)))
  {
    RunConsistent(c, start, steps);
    RunOneMore(c, start, steps, Delivered(e));
    var s := Run(c, start, steps);
    if e.kind !in c.exclude && Hashable(e.obj.value) {
      ShownOnce(c.digest, s.objects, s.sent, e.kind, e.obj.value, false);
    }
  }

  /** The keys a list finds known: those saved, or those in memory when nothing
      was saved or nothing can be. */
  function KnownKeys(c: Config, s: State): set<string> {
    if !c.hasStorage then s.objects.Keys
    else match s.disk
      case Blank => s.objects.Keys
      case Corrupt => {}
      case Saved(m) => m.Keys
  }

  /** What is due for all objects of a list. */
  function AllDue(known: set<string>, sent: seq<Log>, items: seq<Object>): seq<Log> {
    if items == [] then []
    else
      var key := GetKey(items[0]);
      Due(if key in known then Modified else Added, items[0], true, LastShown(known, sent, key)) +
      AllDue(known, sent, items[1..])
  }

  ghost function TextsListed(items: seq<Object>): set<string> {
    set i, t | 0 <= i < |items| && t in TextsOf(items[i]) :: t
  }

  lemma TextsListedFirst(items: seq<Object>)
    requires items != []
    ensures TextsOf(items[0]) <= TextsListed(items) && TextsListed(items[1..]) <= TextsListed(items)
  {
    forall i, t | 0 <= i < |items[1..]| && t in TextsOf(items[1..][i]) ensures t in TextsListed(items) {
      assert t in TextsOf(items[i + 1]);
    }
    assert forall t :: t in TextsOf(items[0]) ==> t in TextsListed(items);
  }

  lemma DistinguishesFewer(digest: string -> string, texts: set<string>, fewer: set<string>)
    requires Distinguishes(digest, texts) && fewer <= texts
    ensures Distinguishes(digest, fewer)
  {
  }

  lemma FirstOwedIsDue(digest: string -> string, cached: map<string, Hashes>, sent: seq<Log>, items: seq<Object>)
    requires items != [] && MatchesLastSent(digest, cached, sent)
    requires Distinguishes(digest, TextsOf(items[0]) + TextsLogged(sent))
    ensures var key := GetKey(items[0]);
      OwedLogs(digest, cached, items) ==
      Due(if key in cached then Modified else Added, items[0], true, LastShown(cached.Keys, sent, key)) +
      OwedLogs(digest, cached, items[1..])
  {
    var o := items[0];
    if Hashable(o) {
      ShownOnce(digest, cached, sent, if GetKey(o) in cached then Modified else Added, o, true);
    }
  }

  lemma {:induction false} OwedIsDue(
      digest: string -> string, cached: map<string, Hashes>, sent: seq<Log>, items: seq<Object>)
    requires MatchesLastSent(digest, cached, sent)
    requires Distinguishes(digest, TextsListed(items) + TextsLogged(sent))
    ensures OwedLogs(digest, cached, items) == AllDue(cached.Keys, sent, items)
  {
    if items != [] {
      var texts := TextsListed(items) + TextsLogged(sent);
      TextsListedFirst(items);
      DistinguishesFewer(digest, texts, TextsOf(items[0]) + TextsLogged(sent));
      DistinguishesFewer(digest, texts, TextsListed(items[1..]) + TextsLogged(sent));
      FirstOwedIsDue(digest, cached, sent, items);
      OwedIsDue(digest, cached, sent, items[1..]);
    }
  }

  /** In every run a list adds the logs that the sections last logged for the
      known keys call for, in the order of the list: Modified for a known key
      and Added for any other. */
  lemma ListReports(c: Config, start: State, steps: seq<Step>, items: seq<Object>)
    requires Consistent(c, start) && DistinctKeys(items)
    requires Distinguishes(c.digest, TextsListed(items) + TextsLogged(Run(c, start, steps).sent))
    ensures var s := Run(c, start, steps);
      Run(c, start, steps + [Listed(items)]).sent == s.sent + AllDue(KnownKeys(c, s), s.sent, items)
  {
    RunConsistent(c, start, steps);
    RunOneMore(c, start, steps, Listed(items));
    var s := Run(c, start, steps);
    var whole :=
      if !c.hasStorage || s.disk.Blank? then s.objects else if s.disk.Corrupt? then map[] else s.disk.objects;
    ListOwes(c, s, items, whole);
    assert whole.Keys == KnownKeys(c, s);
    OwedIsDue(c.digest, whole, s.sent, items);
  }

  // ----- How far a watch gets -----

  /** `n` is the first delivery that ends the watch: one that is no data, or an
      error event with code 410. */
  ghost predicate EndsWatch(deliveries: seq<Delivery>, n: nat) {
    && n <= |deliveries|
    && (forall i :: 0 <= i < n ==>
          deliveries[i].Data? && !(deliveries[i].event.kind == Error && deliveries[i].event.code == 410))
    && (n < |deliveries| && deliveries[n].Data? ==>
          deliveries[n].event.kind == Error && deliveries[n].event.code == 410)
  }

  /** A watch handles every event before that one, and asks for a restart
      exactly when it ends with a 410. */
  lemma {:induction false} WatchTraceIs(deliveries: seq<Delivery>) returns (n: nat)
    ensures EndsWatch(deliveries, n)
    ensures var w := WatchTrace(deliveries);
      && |w| == n + 1
      && (forall i :: 0 <= i < n ==> w[i] == Delivered(deliveries[i].event))
      && w[n] == (if n < |deliveries| && deliveries[n].Data? then Gone else Finished)
      && (Restarts(w) <==> n < |deliveries| && deliveries[n].Data?)
  {
    n := 0;
    if deliveries != [] && deliveries[0].Data? && !IsGone(deliveries[0].event) {
      var rest := WatchTraceIs(deliveries[1..]);
      assert forall i :: 0 < i < |deliveries| ==> deliveries[i] == deliveries[1..][i - 1];
      n := rest + 1;
    }
  }

  /** One turn of the loop lists, unless a version other than empty or 0 is
      given, and watches from the version given or listed, if any. */
  lemma SessionTraceIs(c: Config, resourceVersion: string, session: Session)
    ensures var watched := if session.watchOpens then WatchTrace(session.deliveries) else [Finished];
      var list, trace := session.list, SessionTrace(c, resourceVersion, session);
      if resourceVersion != "" && resourceVersion != "0" then trace == [Watching(resourceVersion)] + watched
      else if list.Items? && !(c.hasStorage && list.loadFails) then
        var unset := list.resourceVersion == "" || list.resourceVersion == "0";
        trace == [Listed(list.items), Watching(if unset then "1" else list.resourceVersion)] + watched
      else trace == [ListFailed]
  {
  }

  /** The loop takes another turn, without a given version, exactly after a
      watch that ended with a 410. */
  lemma LoopGoesOnIff(c: Config, resourceVersion: string, sessions: seq<Session>) returns (n: nat)
    requires sessions != []
    ensures EndsWatch(sessions[0].deliveries, n)
    ensures var s, trace := sessions[0], SessionTrace(c, resourceVersion, sessions[0]);
      var watches := trace != [ListFailed] && s.watchOpens;
      FullTrace(c, resourceVersion, sessions) ==
      if watches && n < |s.deliveries| && s.deliveries[n].Data? then trace + FullTrace(c, "", sessions[1..]) else trace
  {
    n := WatchTraceIs(sessions[0].deliveries);
    SessionTraceIs(c, resourceVersion, sessions[0]);
  }
}
