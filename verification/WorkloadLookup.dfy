/** Finding the workload behind a name, an address or a service name in the
    informer caches. */
module WorkloadLookup {
  import opened Outcomes
  import Hostname
  import Text

  const POD := "Pod"
  const SERVICE := "Service"
  const REPLICA_SET := "ReplicaSet"
  const PODS := "pods"
  const SERVICES := "services"
  const REPLICA_SETS := "replicasets"

  const OTEL_SERVICE_NAME := "resource.opentelemetry.io/service.name"
  const OTEL_SERVICE_NAMESPACE := "resource.opentelemetry.io/service.namespace"
  const APP_NAME := "app.kubernetes.io/name"
  const APP_PART_OF := "app.kubernetes.io/part-of"

  datatype OwnerRef = OwnerRef(kind: string, name: string, uid: string)

  /** The Go type of a cached object, which decides what indexers accept. */
  datatype GoType = PodObject | ServiceObject | OtherObject

  datatype Workload = Workload(
    goType: GoType, kind: string, name: string, namespace: string, owners: seq<OwnerRef>,
    labels: map<string, string>, annotations: map<string, string>,
    hostNetwork: bool, podIPs: seq<string>, clusterIPs: seq<string>, externalIPs: seq<string>)

  type Store = map<string, Workload>
  type Informers = map<string, Store>

  datatype LookupResult = LookupResult(name: string, namespace: string, kind: string)

  const EMPTY := LookupResult("", "", "")

  function StoreKey(namespace: string, name: string): string {
    if namespace == "" then name else namespace + "/" + name
  }

  /** The first expected type whose store holds the key. */
  function LookupWorkload(inf: Informers, name: string, namespace: string, types: seq<string>): Option<Workload> {
    if types == [] then None
    else if types[0] in inf && StoreKey(namespace, name) in inf[types[0]]
    then Some(inf[types[0]][StoreKey(namespace, name)])
    else LookupWorkload(inf, name, namespace, types[1..])
  }

  lemma LookupInOne(inf: Informers, name: string, namespace: string, workloadType: string)
    ensures LookupWorkload(inf, name, namespace, [workloadType]) ==
            if workloadType in inf && StoreKey(namespace, name) in inf[workloadType]
            then Some(inf[workloadType][StoreKey(namespace, name)]) else None
  {
    assert [workloadType][1..] == [];
  }

  // ----- The ReplicaSet ownership graph -----

  function ReplicaSets(inf: Informers): Store {
    if REPLICA_SETS in inf then inf[REPLICA_SETS] else map[]
  }

  /** The first owner reference that has a kind. */
  function FirstOwner(owners: seq<OwnerRef>): Option<OwnerRef> {
    if owners == [] then None
    else if owners[0].kind != "" then Some(owners[0])
    else FirstOwner(owners[1..])
  }

  /** The cached ReplicaSet that the first owner of `w` names. */
  function NextKey(rs: Store, w: Workload): Option<string> {
    match FirstOwner(w.owners)
    case None => None
    case Some(o) =>
      var key := StoreKey(w.namespace, o.name);
      if o.kind == REPLICA_SET && key in rs then Some(key) else None
  }

  /** The ReplicaSet `n` ownership steps above `w`. */
  function Above(rs: Store, w: Workload, n: nat): Option<string>
    requires n > 0
    decreases n
  {
    var next := NextKey(rs, w);
    if n == 1 || next.None? then next else Above(rs, rs[next.value], n - 1)
  }

  ghost predicate Acyclic(rs: Store) {
    forall k, n: nat :: k in rs && n > 0 ==> Above(rs, rs[k], n) != Some(k)
  }

  ghost predicate Reaches(rs: Store, w: Workload, key: string) {
    exists n: nat :: n > 0 && Above(rs, w, n) == Some(key)
  }

  /** All ReplicaSets above `w`. */
  ghost function Reach(rs: Store, w: Workload): set<string> {
    set k | k in rs && Reaches(rs, w, k)
  }

  /** No ReplicaSet above `w` is above itself. */
  ghost predicate AcyclicAbove(rs: Store, w: Workload) {
    forall k :: k in Reach(rs, w) ==> !Reaches(rs, rs[k], k)
  }

  lemma ReachShrinks(rs: Store, w: Workload)
    requires AcyclicAbove(rs, w) && NextKey(rs, w).Some?
    ensures var next := NextKey(rs, w).value;
      Reach(rs, rs[next]) < Reach(rs, w) && AcyclicAbove(rs, rs[next])
  {
    var next := NextKey(rs, w).value;
    forall k | k in Reach(rs, rs[next]) ensures k in Reach(rs, w) {
      var n: nat :| n > 0 && Above(rs, rs[next], n) == Some(k);
      assert Above(rs, w, n + 1) == Some(k);
    }
    assert Above(rs, w, 1) == Some(next);
    assert next in Reach(rs, w) && next !in Reach(rs, rs[next]);
  }

  /** On a cycle the chain of owners never ends. */
  lemma {:induction false} CycleNeverEnds(rs: Store, w: Workload, n: nat, key: string, m: nat)
    requires n > 0 && m > 0 && key in rs
    requires Above(rs, w, n) == Some(key) && Reaches(rs, rs[key], key)
    ensures Above(rs, w, m).Some?
    decreases m, n
  {
    if m > 1 {
      var next := NextKey(rs, w).value;
      if n > 1 {
        CycleNeverEnds(rs, rs[next], n - 1, key, m - 1);
      } else {
        var period: nat :| period > 0 && Above(rs, rs[key], period) == Some(key);
        CycleNeverEnds(rs, rs[key], period, key, m - 1);
      }
    }
  }

  ghost predicate ChainEnds(rs: Store, w: Workload) {
    exists n: nat :: n > 0 && Above(rs, w, n).None?
  }

  lemma {:induction false} AcyclicChainEnds(rs: Store, w: Workload)
    requires AcyclicAbove(rs, w)
    ensures ChainEnds(rs, w)
    decreases Reach(rs, w)
  {
    var next := NextKey(rs, w);
    if next.None? {
      assert Above(rs, w, 1).None?;
    } else {
      ReachShrinks(rs, w);
      AcyclicChainEnds(rs, rs[next.value]);
      var n: nat :| n > 0 && Above(rs, rs[next.value], n).None?;
      assert Above(rs, w, n + 1).None?;
    }
  }

  /** The chain of owners of an object ends, and so its resolution, exactly
      when no ReplicaSet above it is above itself. */
  lemma EndsIffAcyclicAbove(rs: Store, w: Workload)
    ensures ChainEnds(rs, w) <==> AcyclicAbove(rs, w)
  {
    if AcyclicAbove(rs, w) {
      AcyclicChainEnds(rs, w);
    } else {
      var k :| k in Reach(rs, w) && Reaches(rs, rs[k], k);
      var n: nat :| n > 0 && Above(rs, w, n) == Some(k);
      forall m: nat | m > 0 ensures Above(rs, w, m).Some? {
        CycleNeverEnds(rs, w, n, k, m);
      }
    }
  }

  const SELF_OWNED: Workload :=
    Workload(OtherObject, REPLICA_SET, "a", "n", [OwnerRef(REPLICA_SET, "a", "")], map[], map[], false, [], [], [])
  const OWN_OWNER: Store := map["n/a" := SELF_OWNED]

  /** A ReplicaSet that names itself as its owner has no end of owners. */
  lemma SelfOwnedNeverEnds()
    ensures !AcyclicAbove(OWN_OWNER, SELF_OWNED) && !ChainEnds(OWN_OWNER, SELF_OWNED)
  {
    assert StoreKey("n", "a") == "n/a";
    assert Above(OWN_OWNER, SELF_OWNED, 1) == Some("n/a");
    assert Reaches(OWN_OWNER, SELF_OWNED, "n/a") && "n/a" in Reach(OWN_OWNER, SELF_OWNED);
    EndsIffAcyclicAbove(OWN_OWNER, SELF_OWNED);
  }

  // ----- Owner resolution -----

  /** lookupOwnerForWorkload. */
  function LookupOwner(inf: Informers, w: Workload): LookupResult
    requires AcyclicAbove(ReplicaSets(inf), w)
    decreases Reach(ReplicaSets(inf), w), |w.owners| + 1
  {
    OwnerAmong(inf, w, w.owners)
  }

  /** Its loop, with `owners` the references not yet looked at. */
  function OwnerAmong(inf: Informers, w: Workload, owners: seq<OwnerRef>): LookupResult
    requires AcyclicAbove(ReplicaSets(inf), w)
    requires FirstOwner(owners) == FirstOwner(w.owners)
    decreases Reach(ReplicaSets(inf), w), |owners|
  {
    if owners == [] then EMPTY
    else
      var o := owners[0];
      var cached :=
        if o.kind == REPLICA_SET then LookupWorkload(inf, o.name, w.namespace, [REPLICA_SETS]) else None;
      var above :=
        if cached.None? then EMPTY
        else (
          LookupInOne(inf, o.name, w.namespace, REPLICA_SETS);
          ReachShrinks(ReplicaSets(inf), w);
          LookupOwner(inf, cached.value));
      if above != EMPTY then above
      else if o.kind != "" then LookupResult(o.name, w.namespace, o.kind)
      else OwnerAmong(inf, w, owners[1..])
  }

  /** The maximal chain of first owners above `w`. */
  ghost predicate IsChain(rs: Store, w: Workload, chain: seq<OwnerRef>)
    decreases |chain|
  {
    && chain != [] && FirstOwner(w.owners) == Some(chain[0])
    && var next := NextKey(rs, w);
    if next.Some? && FirstOwner(rs[next.value].owners).Some?
    then IsChain(rs, rs[next.value], chain[1..])
    else |chain| == 1
  }

  /** Objects sit under their own key; namespaces and stored names hold no slash. */
  ghost predicate WellKeyed(store: Store) {
    forall k :: k in store ==>
      k == StoreKey(store[k].namespace, store[k].name) && '/' !in store[k].namespace && '/' !in store[k].name
  }

  /** A key without a namespace must not look like one that has it. */
  predicate Unambiguous(namespace: string, name: string) {
    '/' !in namespace && (namespace == "" ==> '/' !in name)
  }

  ghost predicate OwnersUnambiguous(rs: Store, w: Workload) {
    && (forall o :: o in w.owners ==> Unambiguous(w.namespace, o.name))
    && (forall k, o :: k in rs && rs[k].namespace == w.namespace && o in rs[k].owners ==>
          Unambiguous(w.namespace, o.name))
  }

  lemma SameNamespace(store: Store, namespace: string, name: string)
    requires WellKeyed(store) && StoreKey(namespace, name) in store
    requires Unambiguous(namespace, name)
    ensures store[StoreKey(namespace, name)].namespace == namespace
  {
    var found := store[StoreKey(namespace, name)];
    var key := StoreKey(namespace, name);
    if namespace != "" {
      assert key[|namespace|] == '/';
      if found.namespace != "" {
        Text.CutAtFirst(namespace, name, found.namespace, found.name, '/');
      }
    }
  }

  /** What the resolution gives, read off the first owner alone. */
  lemma {:induction false} OwnerOfFirst(inf: Informers, w: Workload, owners: seq<OwnerRef>)
    requires AcyclicAbove(ReplicaSets(inf), w) && FirstOwner(owners) == FirstOwner(w.owners)
    ensures var rs := ReplicaSets(inf);
      NextKey(rs, w).Some? ==> AcyclicAbove(rs, rs[NextKey(rs, w).value])
    ensures var rs, first := ReplicaSets(inf), FirstOwner(owners);
      OwnerAmong(inf, w, owners) ==
        if first.None? then EMPTY
        else if NextKey(rs, w).Some? && LookupOwner(inf, rs[NextKey(rs, w).value]) != EMPTY
        then LookupOwner(inf, rs[NextKey(rs, w).value])
        else LookupResult(first.value.name, w.namespace, first.value.kind)
    decreases |owners|
  {
    if NextKey(ReplicaSets(inf), w).Some? {
      ReachShrinks(ReplicaSets(inf), w);
    }
    if owners != [] {
      var o := owners[0];
      LookupInOne(inf, o.name, w.namespace, REPLICA_SETS);
      if o.kind == "" {
        OwnerOfFirst(inf, w, owners[1..]);
      }
    }
  }

  /** Owner resolution returns the end of the chain of first owners: empty
      exactly without an owner that has a kind, always in the namespace of the
      start, and never a ReplicaSet whose cached object has an owner itself. */
  lemma {:induction false} OwnerIsEndOfChain(inf: Informers, w: Workload) returns (chain: seq<OwnerRef>)
    requires AcyclicAbove(ReplicaSets(inf), w) && WellKeyed(ReplicaSets(inf))
    requires OwnersUnambiguous(ReplicaSets(inf), w)
    ensures var rs, r := ReplicaSets(inf), LookupOwner(inf, w);
      && (r == EMPTY <==> FirstOwner(w.owners).None?)
      && (r != EMPTY ==>
            && IsChain(rs, w, chain)
            && r == LookupResult(chain[|chain| - 1].name, w.namespace, chain[|chain| - 1].kind)
            && (r.kind == REPLICA_SET && StoreKey(w.namespace, r.name) in rs ==>
                  FirstOwner(rs[StoreKey(w.namespace, r.name)].owners).None?))
    decreases Reach(ReplicaSets(inf), w)
  {
    var rs := ReplicaSets(inf);
    OwnerOfFirst(inf, w, w.owners);
    FirstOwnerHasKind(w.owners);
    chain := [];
    if FirstOwner(w.owners).Some? {
      var first, next := FirstOwner(w.owners).value, NextKey(rs, w);
      chain := [first];
      if next.Some? {
        ReachShrinks(rs, w);
        SameNamespace(rs, w.namespace, first.name);
        var above := OwnerIsEndOfChain(inf, rs[next.value]);
        if LookupOwner(inf, rs[next.value]) != EMPTY {
          chain := chain + above;
          assert chain[1..] == above;
        }
      }
    }
  }

  lemma FirstOwnerHasKind(owners: seq<OwnerRef>)
    ensures FirstOwner(owners).Some? ==> FirstOwner(owners).value.kind != "" && FirstOwner(owners).value in owners
  {
  }

  // ----- Lookups -----

  /** lookupOwnerKindByNameAndNamespace. */
  function LookupOwnerByName(inf: Informers, name: string, namespace: string, workloadType: string): LookupResult
    requires Acyclic(ReplicaSets(inf))
  {
    match LookupWorkload(inf, name, namespace, [workloadType])
    case None => EMPTY
    case Some(w) => LookupOwner(inf, w)
  }

  function KindOf(w: Workload): string {
    if w.kind != "" then w.kind
    else match w.goType
      case PodObject => POD
      case ServiceObject => SERVICE
      case OtherObject => ""
  }

  function ExtractWorkloadKind(inf: Informers, w: Workload, preferPodOwner: bool): LookupResult
    requires Acyclic(ReplicaSets(inf))
  {
    var owner := if preferPodOwner && KindOf(w) == POD then LookupOwner(inf, w) else EMPTY;
    if owner != EMPTY then owner
    else if KindOf(w) != "" then LookupResult(w.name, w.namespace, KindOf(w))
    else EMPTY
  }

  function LookupByName(
      inf: Informers, name: string, namespace: string, types: seq<string>, preferPodOwner: bool): LookupResult
    requires Acyclic(ReplicaSets(inf))
  {
    match LookupWorkload(inf, name, namespace, types)
    case None => EMPTY
    case Some(w) => ExtractWorkloadKind(inf, w, preferPodOwner)
  }

  // The indexers.

  function PodIpIndex(w: Workload): seq<string> {
    if w.goType.PodObject? && !w.hostNetwork then w.podIPs else []
  }

  predicate ServiceIpIndexed(w: Workload, ip: string) {
    w.goType.ServiceObject? && ip != "" && ip != "None" && (ip in w.clusterIPs || ip in w.externalIPs)
  }

  /** The service indexer: cluster addresses first, then external ones. */
  method IndexServiceIps(w: Workload) returns (ips: seq<string>)
    requires w.goType.ServiceObject?
    ensures forall ip :: ip in ips <==> ServiceIpIndexed(w, ip)
  {
    ips := [];
    var all := w.clusterIPs + w.externalIPs;
    for i := 0 to |all|
      invariant forall ip :: ip in ips <==> ip in all[..i] && ip != "" && ip != "None"
    {
      assert all[..i + 1] == all[..i] + [all[i]];
      if all[i] != "" && all[i] != "None" {
        ips := ips + [all[i]];
      }
    }
    assert all[..|all|] == all;
  }

  function ValueOr(m: map<string, string>, key: string): string {
    if key in m then m[key] else ""
  }

  function TheOnly<T(==)>(s: set<T>): (x: T)
    requires |s| == 1
    ensures s == {x}
  {
    OneElement(s);
    var x :| x in s;
    x
  }

  lemma OneElement<T>(s: set<T>)
    requires |s| == 1
    ensures forall x, y :: x in s && y in s ==> x == y
    ensures exists x :: x in s
  {
    var x :| x in s;
    assert |s - {x}| == 0;
  }

  function MatchingIp(inf: Informers, ip: string, workloadType: string): set<string>
    requires workloadType in inf
  {
    var store := inf[workloadType];
    if workloadType == PODS then set k | k in store && ip in PodIpIndex(store[k])
    else if workloadType == SERVICES then set k | k in store && ServiceIpIndexed(store[k], ip)
    else {}
  }

  predicate Searchable(workloadType: string) {
    workloadType == PODS || workloadType == SERVICES
  }

  /** Informers exist for the expected types that are searched by address. */
  predicate Watched(inf: Informers, types: seq<string>) {
    forall t :: t in types && Searchable(t) ==> t in inf
  }

  function LookupByIp(inf: Informers, ip: string, types: seq<string>, preferPodOwner: bool): LookupResult
    requires Acyclic(ReplicaSets(inf)) && Watched(inf, types)
  {
    if types == [] then EMPTY
    else if Searchable(types[0]) && |MatchingIp(inf, ip, types[0])| == 1 then
      ExtractWorkloadKind(inf, inf[types[0]][TheOnly(MatchingIp(inf, ip, types[0]))], preferPodOwner)
    else LookupByIp(inf, ip, types[1..], preferPodOwner)
  }

  function LookupByHostname(
      inf: Informers, host: string, namespaceFromAttr: string, types: seq<string>, preferPodOwner: bool): LookupResult
    requires Acyclic(ReplicaSets(inf))
  {
    var p := Hostname.Parse(host);
    if p.kind == Hostname.POD then
      if p.name == "" || p.namespace == "" then EMPTY
      else
        var owner := if preferPodOwner then LookupOwnerByName(inf, p.name, p.namespace, PODS) else EMPTY;
        if owner != EMPTY then owner else LookupResult(p.name, p.namespace, POD)
    else if p.kind == Hostname.SVC then
      if p.name == "" || p.namespace == "" then EMPTY else LookupResult(p.name, p.namespace, SERVICE)
    else
      var r1 :=
        if p.name != "" && p.namespace != ""
        then LookupByName(inf, p.name, p.namespace, types, preferPodOwner) else EMPTY;
      var r2 :=
        if r1 == EMPTY && p.name != "" && p.namespace == "" && namespaceFromAttr != ""
        then LookupByName(inf, p.name, namespaceFromAttr, types, preferPodOwner) else r1;
      if r2 == EMPTY && host != "" && namespaceFromAttr != ""
      then LookupByName(inf, host, namespaceFromAttr, types, preferPodOwner) else r2
  }

  /** Where an OTel service name and namespace may be noted on a pod. */
  datatype Note = LabelNote | AnnotationNote

  function ServiceName(note: Note, w: Workload): string {
    if note.LabelNote? then ValueOr(w.labels, APP_NAME) else ValueOr(w.annotations, OTEL_SERVICE_NAME)
  }

  function ServiceNamespace(note: Note, w: Workload): string {
    if note.LabelNote? then ValueOr(w.labels, APP_PART_OF) else ValueOr(w.annotations, OTEL_SERVICE_NAMESPACE)
  }

  function NotedPods(pods: Store, note: Note, p: Hostname.Parsed, namespaceFromAttr: string): set<string> {
    set k | k in pods && pods[k].goType.PodObject? && ServiceName(note, pods[k]) == p.name &&
            (p.namespace == "" || ServiceNamespace(note, pods[k]) == p.namespace || namespaceFromAttr == p.namespace)
  }

  function OwnersOf(inf: Informers, pods: Store, keys: set<string>): set<LookupResult>
    requires Acyclic(ReplicaSets(inf)) && keys <= pods.Keys
  {
    set k | k in keys && LookupOwner(inf, pods[k]) != EMPTY :: LookupOwner(inf, pods[k])
  }

  /** The loop that gathers the owners of several pods, in any order. */
  method GatherOwners(inf: Informers, pods: Store, keys: set<string>) returns (owners: set<LookupResult>)
    requires Acyclic(ReplicaSets(inf)) && keys <= pods.Keys
    ensures owners == OwnersOf(inf, pods, keys)
  {
    owners := {};
    var todo := keys;
    while todo != {}
      invariant todo <= keys
      invariant owners == OwnersOf(inf, pods, keys - todo)
      decreases todo
    {
      var key :| key in todo;
      todo := todo - {key};
      assert keys - todo == (keys - todo - {key}) + {key};
      var owner := LookupOwner(inf, pods[key]);
      if owner != EMPTY {
        owners := owners + {owner};
      }
    }
    assert keys - todo == keys;
  }

  function LookupByNote(
      inf: Informers, pods: Store, note: Note, p: Hostname.Parsed, namespaceFromAttr: string,
      preferPodOwner: bool): LookupResult
    requires Acyclic(ReplicaSets(inf))
  {
    var found := NotedPods(pods, note, p, namespaceFromAttr);
    if |found| == 1 then ExtractWorkloadKind(inf, pods[TheOnly(found)], preferPodOwner)
    else if |found| > 1 && preferPodOwner && |OwnersOf(inf, pods, found)| == 1 then TheOnly(OwnersOf(inf, pods, found))
    else EMPTY
  }

  /** Nothing is looked up without a name, or for a mapping that has no pods. */
  predicate Sought(inf: Informers, service: string, types: seq<string>) {
    Hostname.Parse(service).name != "" && PODS in inf && PODS in types
  }

  /** Two kinds of notes in order of priority. */
  function LookupByNotes(
      inf: Informers, service: string, namespaceFromAttr: string, types: seq<string>, preferPodOwner: bool,
      first: Note, second: Note): LookupResult
    requires Acyclic(ReplicaSets(inf))
  {
    var p := Hostname.Parse(service);
    if !Sought(inf, service, types) then EMPTY
    else
      var r := LookupByNote(inf, inf[PODS], first, p, namespaceFromAttr, preferPodOwner);
      if r != EMPTY then r else LookupByNote(inf, inf[PODS], second, p, namespaceFromAttr, preferPodOwner)
  }

  /** LookupWorkloadByOtelInstrumentationServiceName: labels before annotations. */
  function LookupByOtelService(
      inf: Informers, service: string, namespaceFromAttr: string, types: seq<string>,
      preferPodOwner: bool): LookupResult
    requires Acyclic(ReplicaSets(inf))
  {
    LookupByNotes(inf, service, namespaceFromAttr, types, preferPodOwner, LabelNote, AnnotationNote)
  }

  /** The order documented for it: annotations before labels. */
  function LookupAsDocumented(
      inf: Informers, service: string, namespaceFromAttr: string, types: seq<string>,
      preferPodOwner: bool): LookupResult
    requires Acyclic(ReplicaSets(inf))
  {
    LookupByNotes(inf, service, namespaceFromAttr, types, preferPodOwner, AnnotationNote, LabelNote)
  }

  /** What a pod stands for: its owner, if that is preferred and its references
      have one, or else itself. */
  function StandsFor(inf: Informers, w: Workload, preferPodOwner: bool): LookupResult
    requires Acyclic(ReplicaSets(inf))
  {
    if preferPodOwner && KindOf(w) == POD && FirstOwner(w.owners).Some? then LookupOwner(inf, w)
    else LookupResult(w.name, w.namespace, KindOf(w))
  }

  ghost predicate Several(keys: set<string>) {
    exists a, b :: a in keys && b in keys && a != b
  }

  /** The pods with the given keys lead to one workload: there is one pod and
      this is what it stands for, or owners are preferred and it owns every one
      of several pods that has an owner, of which there is one at least. */
  ghost predicate LeadTo(inf: Informers, pods: Store, keys: set<string>, preferPodOwner: bool, to: LookupResult)
    requires Acyclic(ReplicaSets(inf)) && keys <= pods.Keys
  {
    || (exists k :: keys == {k} && to == StandsFor(inf, pods[k], preferPodOwner))
    || (&& preferPodOwner && Several(keys)
        && (exists k :: k in keys && FirstOwner(pods[k].owners).Some?)
        && (forall k :: k in keys && FirstOwner(pods[k].owners).Some? ==> LookupOwner(inf, pods[k]) == to))
  }

  /** Whether a resolution finds an owner shows in the references. */
  lemma OwnedIff(inf: Informers, w: Workload)
    requires Acyclic(ReplicaSets(inf))
    ensures LookupOwner(inf, w) != EMPTY <==> FirstOwner(w.owners).Some?
  {
    OwnerOfFirst(inf, w, w.owners);
    FirstOwnerHasKind(w.owners);
  }

  lemma SeveralIff(keys: set<string>)
    ensures Several(keys) <==> |keys| > 1
  {
    if |keys| == 1 {
      OneElement(keys);
    } else if |keys| > 1 {
      var a :| a in keys;
      assert |keys - {a}| > 0;
      var b :| b in keys - {a};
    }
  }

  lemma OnlyOwnerIff(inf: Informers, pods: Store, keys: set<string>, to: LookupResult)
    requires Acyclic(ReplicaSets(inf)) && keys <= pods.Keys
    ensures OwnersOf(inf, pods, keys) == {to} <==>
            && (exists k :: k in keys && FirstOwner(pods[k].owners).Some?)
            && (forall k :: k in keys && FirstOwner(pods[k].owners).Some? ==> LookupOwner(inf, pods[k]) == to)
  {
    forall k | k in keys ensures LookupOwner(inf, pods[k]) != EMPTY <==> FirstOwner(pods[k].owners).Some? {
      OwnedIff(inf, pods[k]);
    }
    var owners := OwnersOf(inf, pods, keys);
    if owners == {to} {
      assert to in owners;
      forall k | k in keys && FirstOwner(pods[k].owners).Some? ensures LookupOwner(inf, pods[k]) == to {
        assert LookupOwner(inf, pods[k]) in owners;
      }
    }
  }

  lemma OneLeads(inf: Informers, pods: Store, k: string, preferPodOwner: bool, to: LookupResult)
    requires Acyclic(ReplicaSets(inf)) && k in pods && pods[k].goType.PodObject?
    ensures LeadTo(inf, pods, {k}, preferPodOwner, to) <==>
            to != EMPTY && ExtractWorkloadKind(inf, pods[k], preferPodOwner) == to
  {
    assert forall x :: {k} == {x} ==> x in {k};
    OwnedIff(inf, pods[k]);
  }

  lemma OthersLead(inf: Informers, pods: Store, keys: set<string>, preferPodOwner: bool, to: LookupResult)
    requires Acyclic(ReplicaSets(inf)) && keys <= pods.Keys && |keys| != 1
    ensures LeadTo(inf, pods, keys, preferPodOwner, to) <==>
            |keys| > 1 && preferPodOwner && OwnersOf(inf, pods, keys) == {to}
  {
    SeveralIff(keys);
    assert forall x :: keys == {x} ==> |keys| == 1;
    OnlyOwnerIff(inf, pods, keys, to);
  }

  /** The lookup by one kind of note finds what the pods with that note lead to. */
  lemma NoteLeads(
      inf: Informers, pods: Store, note: Note, p: Hostname.Parsed, namespaceFromAttr: string, preferPodOwner: bool,
      to: LookupResult)
    requires Acyclic(ReplicaSets(inf))
    ensures LeadTo(inf, pods, NotedPods(pods, note, p, namespaceFromAttr), preferPodOwner, to) <==>
            to != EMPTY && LookupByNote(inf, pods, note, p, namespaceFromAttr, preferPodOwner) == to
  {
    var keys := NotedPods(pods, note, p, namespaceFromAttr);
    if |keys| == 1 {
      OneLeads(inf, pods, TheOnly(keys), preferPodOwner, to);
    } else {
      OthersLead(inf, pods, keys, preferPodOwner, to);
      var owners := OwnersOf(inf, pods, keys);
      assert owners == {to} ==> |owners| == 1 && to in owners;
    }
  }

  /** The labelled pods lead to one workload and the annotated ones to another. */
  ghost predicate NotesDisagree(
      inf: Informers, service: string, namespaceFromAttr: string, types: seq<string>, preferPodOwner: bool)
    requires Acyclic(ReplicaSets(inf))
  {
    && Sought(inf, service, types)
    && var p, pods := Hostname.Parse(service), inf[PODS];
    exists x, y :: x != y
      && LeadTo(inf, pods, NotedPods(pods, LabelNote, p, namespaceFromAttr), preferPodOwner, x)
      && LeadTo(inf, pods, NotedPods(pods, AnnotationNote, p, namespaceFromAttr), preferPodOwner, y)
  }

  /** The order kept is the one documented exactly where the notes do not disagree. */
  lemma DocumentedOrderIff(
      inf: Informers, service: string, namespaceFromAttr: string, types: seq<string>, preferPodOwner: bool)
    requires Acyclic(ReplicaSets(inf))
    ensures LookupByOtelService(inf, service, namespaceFromAttr, types, preferPodOwner) ==
            LookupAsDocumented(inf, service, namespaceFromAttr, types, preferPodOwner)
            <==> !NotesDisagree(inf, service, namespaceFromAttr, types, preferPodOwner)
  {
    if Sought(inf, service, types) {
      var p, pods := Hostname.Parse(service), inf[PODS];
      var byLabel := LookupByNote(inf, pods, LabelNote, p, namespaceFromAttr, preferPodOwner);
      var byAnnotation := LookupByNote(inf, pods, AnnotationNote, p, namespaceFromAttr, preferPodOwner);
      NoteLeads(inf, pods, LabelNote, p, namespaceFromAttr, preferPodOwner, byLabel);
      NoteLeads(inf, pods, AnnotationNote, p, namespaceFromAttr, preferPodOwner, byAnnotation);
      if NotesDisagree(inf, service, namespaceFromAttr, types, preferPodOwner) {
        var x, y :| x != y
          && LeadTo(inf, pods, NotedPods(pods, LabelNote, p, namespaceFromAttr), preferPodOwner, x)
          && LeadTo(inf, pods, NotedPods(pods, AnnotationNote, p, namespaceFromAttr), preferPodOwner, y);
        NoteLeads(inf, pods, LabelNote, p, namespaceFromAttr, preferPodOwner, x);
        NoteLeads(inf, pods, AnnotationNote, p, namespaceFromAttr, preferPodOwner, y);
      }
    }
  }

  const LABELLED: Workload :=
    Workload(PodObject, POD, "a", "n", [], map[APP_NAME := "s"], map[], false, [], [], [])
  const ANNOTATED: Workload :=
    Workload(PodObject, POD, "b", "n", [], map[], map[OTEL_SERVICE_NAME := "s"], false, [], [], [])
  const TWO_PODS: Informers := map[PODS := map["n/a" := LABELLED, "n/b" := ANNOTATED]]

  /** A pod labelled s and another annotated s: the labelled one is found,
      where the documentation has the annotated one. */
  lemma LabelWins()
    ensures Acyclic(ReplicaSets(TWO_PODS))
    ensures LookupByOtelService(TWO_PODS, "s", "", [PODS], false) == LookupResult("a", "n", POD)
    ensures LookupAsDocumented(TWO_PODS, "s", "", [PODS], false) == LookupResult("b", "n", POD)
  {
    Hostname.SplitDotFree("s");
    var p := Hostname.Parse("s");
    var pods := TWO_PODS[PODS];
    assert "n/a"[2] != "n/b"[2];
    assert NotedPods(pods, LabelNote, p, "") == {"n/a"};
    assert NotedPods(pods, AnnotationNote, p, "") == {"n/b"};
  }

  /** The lookup of a host taken from an address attribute. */
  function LookupByAddress(
      inf: Informers, host: string, isIp: bool, namespaceRequired: bool, namespace: string, types: seq<string>,
      preferPodOwner: bool): LookupResult
    requires Acyclic(ReplicaSets(inf)) && Watched(inf, types)
  {
    if isIp then LookupByIp(inf, host, types, preferPodOwner)
    else if namespaceRequired && namespace == "" && Hostname.Parse(host).namespace == "" then EMPTY
    else
      var r := LookupByHostname(inf, host, namespace, types, preferPodOwner);
      if r != EMPTY then r else LookupByOtelService(inf, host, namespace, types, preferPodOwner)
  }
}
