/** The transforms that strip objects before they enter an informer cache, and
    why no lookup can tell the difference. */
module InformerTransforms {
  import opened Outcomes
  import opened WorkloadLookup
  import Hostname

  function CopyOwnerReferences(owners: seq<OwnerRef>): seq<OwnerRef> {
    if owners == [] then [] else [OwnerRef(owners[0].kind, owners[0].name, "")] + CopyOwnerReferences(owners[1..])
  }

  lemma {:induction false} CopyAt(owners: seq<OwnerRef>, copied: seq<OwnerRef>)
    requires |copied| == |owners|
    requires forall i :: 0 <= i < |owners| ==> copied[i] == OwnerRef(owners[i].kind, owners[i].name, "")
    ensures copied == CopyOwnerReferences(owners)
  {
    if owners != [] {
      CopyAt(owners[1..], copied[1..]);
    }
  }

  /** The loop behind it: each reference keeps its kind and name, in its place. */
  method CopyReferences(owners: seq<OwnerRef>) returns (copied: seq<OwnerRef>)
    ensures |copied| == |owners|
    ensures forall i :: 0 <= i < |owners| ==>
              copied[i].kind == owners[i].kind && copied[i].name == owners[i].name && copied[i].uid == ""
    ensures copied == CopyOwnerReferences(owners)
  {
    copied := [];
    for i := 0 to |owners|
      invariant |copied| == i
      invariant forall j :: 0 <= j < i ==> copied[j] == OwnerRef(owners[j].kind, owners[j].name, "")
    {
      copied := copied + [OwnerRef(owners[i].kind, owners[i].name, "")];
    }
    CopyAt(owners, copied);
  }

  function FilterMap(m: map<string, string>, keep: set<string>): map<string, string> {
    map k | k in m && k in keep :: m[k]
  }

  /** The loop behind it, taking the entries in any order. */
  method FilterKeys(m: map<string, string>, keep: set<string>) returns (filtered: map<string, string>)
    ensures filtered == FilterMap(m, keep)
  {
    filtered := map[];
    var todo := m.Keys;
    while todo != {}
      invariant todo <= m.Keys
      invariant filtered == map k | k in m && k in keep && k !in todo :: m[k]
      decreases todo
    {
      var key :| key in todo;
      todo := todo - {key};
      if key in keep {
        filtered := filtered[key := m[key]];
      }
    }
  }

  function Bare(w: Workload, kind: string, goType: GoType, owners: seq<OwnerRef>): Workload {
    Workload(goType, kind, w.name, w.namespace, owners, map[], map[], false, [], [], [])
  }

  /** The transform chosen for a workload kind; `copyOwners` as decided at start. */
  function Transform(kind: string, copyOwners: bool, w: Workload): Workload {
    if kind == POD then
      if !w.goType.PodObject? then w
      else
        Bare(w, POD, PodObject, if copyOwners then CopyOwnerReferences(w.owners) else []).(
          labels := FilterMap(w.labels, {APP_NAME, APP_PART_OF}),
          annotations := FilterMap(w.annotations, {OTEL_SERVICE_NAME, OTEL_SERVICE_NAMESPACE}),
          hostNetwork := w.hostNetwork, podIPs := w.podIPs)
    else if kind == SERVICE then
      if !w.goType.ServiceObject? then w
      else Bare(w, SERVICE, ServiceObject, []).(clusterIPs := w.clusterIPs, externalIPs := w.externalIPs)
    else if kind == REPLICA_SET then
      Bare(w, kind, OtherObject, if copyOwners then CopyOwnerReferences(w.owners) else [])
    else Bare(w, kind, OtherObject, [])
  }

  // ----- What is left of an object -----

  ghost predicate AgreeOn(m: map<string, string>, n: map<string, string>, key: string) {
    (key in m <==> key in n) && (key in m && key in n ==> m[key] == n[key])
  }

  ghost predicate SameReferences(a: seq<OwnerRef>, b: seq<OwnerRef>) {
    |a| == |b| && forall i :: 0 <= i < |a| ==> a[i].kind == b[i].kind && a[i].name == b[i].name
  }

  lemma FilterSameIff(m: map<string, string>, n: map<string, string>, keep: set<string>)
    ensures FilterMap(m, keep) == FilterMap(n, keep) <==> forall key :: key in keep ==> AgreeOn(m, n, key)
  {
    var a, b := FilterMap(m, keep), FilterMap(n, keep);
    assert forall key :: key in keep ==> (AgreeOn(m, n, key) <==> AgreeOn(a, b, key));
    if forall key :: key in keep ==> AgreeOn(m, n, key) {
      assert forall key :: key in a <==> key in b;
    }
  }

  lemma {:induction false} CopySameIff(a: seq<OwnerRef>, b: seq<OwnerRef>)
    ensures |CopyOwnerReferences(a)| == |a|
    ensures CopyOwnerReferences(a) == CopyOwnerReferences(b) <==> SameReferences(a, b)
  {
    if a != [] && b != [] {
      var x, y := CopyOwnerReferences(a), CopyOwnerReferences(b);
      assert x == [x[0]] + CopyOwnerReferences(a[1..]) && y == [y[0]] + CopyOwnerReferences(b[1..]);
      CopySameIff(a[1..], b[1..]);
      assert x == y <==> x[0] == y[0] && x[1..] == y[1..];
      assert SameReferences(a, b) <==>
        a[0].kind == b[0].kind && a[0].name == b[0].name && SameReferences(a[1..], b[1..]);
    } else if a != [] {
      CopySameIff(a[1..], b);
    }
  }

  /** Two pods are the same once stripped exactly when they agree on name and
      namespace, two labels, two annotations, the host network, the addresses
      and, where owners are copied, on the kinds and names of their owners. */
  lemma PodStripsIff(copyOwners: bool, a: Workload, b: Workload)
    requires a.goType.PodObject? && b.goType.PodObject?
    ensures Transform("Pod", copyOwners, a).kind == "Pod" && Transform("Pod", copyOwners, a).goType.PodObject?
    ensures Transform("Pod", copyOwners, a) == Transform("Pod", copyOwners, b) <==>
            && a.name == b.name && a.namespace == b.namespace
            && AgreeOn(a.labels, b.labels, "app.kubernetes.io/name")
            && AgreeOn(a.labels, b.labels, "app.kubernetes.io/part-of")
            && AgreeOn(a.annotations, b.annotations, "resource.opentelemetry.io/service.name")
            && AgreeOn(a.annotations, b.annotations, "resource.opentelemetry.io/service.namespace")
            && a.hostNetwork == b.hostNetwork && a.podIPs == b.podIPs
            && (copyOwners ==> SameReferences(a.owners, b.owners))
  {
    FilterSameIff(a.labels, b.labels, {APP_NAME, APP_PART_OF});
    FilterSameIff(a.annotations, b.annotations, {OTEL_SERVICE_NAME, OTEL_SERVICE_NAMESPACE});
    CopySameIff(a.owners, b.owners);
  }

  /** Of a service are left its name, namespace and addresses, of a ReplicaSet
      its name, namespace and copied owners, of anything else name and namespace. */
  lemma OthersStripIff(kind: string, copyOwners: bool, a: Workload, b: Workload)
    requires kind != "Pod" && (kind == "Service" ==> a.goType.ServiceObject? && b.goType.ServiceObject?)
    ensures Transform(kind, copyOwners, a).kind == kind
    ensures Transform(kind, copyOwners, a) == Transform(kind, copyOwners, b) <==>
            && a.name == b.name && a.namespace == b.namespace
            && (kind == "Service" ==> a.clusterIPs == b.clusterIPs && a.externalIPs == b.externalIPs)
            && (kind == "ReplicaSet" && copyOwners ==> SameReferences(a.owners, b.owners))
  {
    CopySameIff(a.owners, b.owners);
  }

  function TransformStore(kind: string, copyOwners: bool, store: Store): Store {
    map k | k in store :: Transform(kind, copyOwners, store[k])
  }

  function TransformAll(kinds: map<string, string>, copyOwners: bool, inf: Informers): Informers
    requires inf.Keys <= kinds.Keys
  {
    map t | t in inf :: TransformStore(kinds[t], copyOwners, inf[t])
  }

  /** Each store holds objects of its own type that carry their true kind. */
  ghost predicate WellTyped(kinds: map<string, string>, inf: Informers) {
    && inf.Keys <= kinds.Keys
    && (forall t :: t in inf ==> kinds[t] != "")
    && (PODS in inf ==> kinds[PODS] == POD)
    && (SERVICES in inf ==> kinds[SERVICES] == SERVICE)
    && (REPLICA_SETS in inf ==> kinds[REPLICA_SETS] == REPLICA_SET)
    && (forall t, k :: t in inf && k in inf[t] ==>
          && inf[t][k].kind == kinds[t]
          && inf[t][k].goType ==
               if kinds[t] == POD then PodObject else if kinds[t] == SERVICE then ServiceObject else OtherObject)
  }

  // ----- Owner resolution survives -----

  lemma {:induction false} CopyKeepsFirstOwner(owners: seq<OwnerRef>)
    ensures var a, b := FirstOwner(owners), FirstOwner(CopyOwnerReferences(owners));
      if a.None? then b.None? else b.Some? && b.value.kind == a.value.kind && b.value.name == a.value.name
  {
    if owners != [] && owners[0].kind == "" {
      CopyKeepsFirstOwner(owners[1..]);
    }
  }

  ghost predicate SameOwnership(a: Workload, b: Workload) {
    && a.namespace == b.namespace
    && (FirstOwner(b.owners).Some? ==>
          && FirstOwner(a.owners).Some?
          && FirstOwner(a.owners).value.kind == FirstOwner(b.owners).value.kind
          && FirstOwner(a.owners).value.name == FirstOwner(b.owners).value.name)
  }

  /** No new ownership edges appear in a store whose objects keep or lose owners. */
  lemma {:induction false} AboveStays(rs: Store, rs': Store, w: Workload, w': Workload, n: nat)
    requires n > 0 && rs.Keys == rs'.Keys && SameOwnership(w, w')
    requires forall k :: k in rs ==> SameOwnership(rs[k], rs'[k])
    ensures Above(rs', w', n).Some? ==> Above(rs, w, n) == Above(rs', w', n)
    decreases n
  {
    var next := NextKey(rs', w');
    if n > 1 && next.Some? {
      AboveStays(rs, rs', rs[next.value], rs'[next.value], n - 1);
    }
  }

  lemma TransformKeepsAcyclic(kinds: map<string, string>, copyOwners: bool, inf: Informers)
    requires WellTyped(kinds, inf) && Acyclic(ReplicaSets(inf))
    ensures Acyclic(ReplicaSets(TransformAll(kinds, copyOwners, inf)))
  {
    var rs, rs' := ReplicaSets(inf), ReplicaSets(TransformAll(kinds, copyOwners, inf));
    forall k | k in rs ensures SameOwnership(rs[k], rs'[k]) {
      CopyKeepsFirstOwner(rs[k].owners);
    }
    forall k, n: nat | k in rs' && n > 0 ensures Above(rs', rs'[k], n) != Some(k) {
      AboveStays(rs, rs', rs[k], rs'[k], n);
    }
  }

  lemma {:induction false} TransformKeepsOwner(kinds: map<string, string>, inf: Informers, w: Workload, w': Workload)
    requires WellTyped(kinds, inf) && Acyclic(ReplicaSets(inf))
    requires w'.namespace == w.namespace && w'.owners == CopyOwnerReferences(w.owners)
    requires Acyclic(ReplicaSets(TransformAll(kinds, true, inf)))
    ensures LookupOwner(TransformAll(kinds, true, inf), w') == LookupOwner(inf, w)
    decreases Reach(ReplicaSets(inf), w)
  {
    var inf' := TransformAll(kinds, true, inf);
    CopyKeepsFirstOwner(w.owners);
    OwnerOfFirst(inf, w, w.owners);
    OwnerOfFirst(inf', w', w'.owners);
    var rs := ReplicaSets(inf);
    if NextKey(rs, w).Some? {
      ReachShrinks(rs, w);
      var next := NextKey(rs, w).value;
      TransformKeepsOwner(kinds, inf, rs[next], ReplicaSets(inf')[next]);
    }
  }

  // ----- Each lookup survives -----

  /** Owners are kept whenever the mapping would look at them. */
  ghost predicate Ready(kinds: map<string, string>, inf: Informers, copyOwners: bool, preferPodOwner: bool) {
    && WellTyped(kinds, inf) && Acyclic(ReplicaSets(inf))
    && (preferPodOwner ==> copyOwners)
  }

  lemma ExtractSurvives(
      kinds: map<string, string>, inf: Informers, copyOwners: bool, prefer: bool, t: string, k: string)
    requires Ready(kinds, inf, copyOwners, prefer) && t in inf && k in inf[t]
    ensures var inf' := TransformAll(kinds, copyOwners, inf);
      && Acyclic(ReplicaSets(inf'))
      && ExtractWorkloadKind(inf', inf'[t][k], prefer) == ExtractWorkloadKind(inf, inf[t][k], prefer)
      && (prefer && kinds[t] == POD ==> LookupOwner(inf', inf'[t][k]) == LookupOwner(inf, inf[t][k]))
  {
    TransformKeepsAcyclic(kinds, copyOwners, inf);
    if prefer && kinds[t] == POD {
      TransformKeepsOwner(kinds, inf, inf[t][k], TransformAll(kinds, copyOwners, inf)[t][k]);
    }
  }

  /** Where a name is found does not change, only what is found is stripped. */
  lemma {:induction false} LookupFindsSame(
      kinds: map<string, string>, copyOwners: bool, inf: Informers, name: string, namespace: string, types: seq<string>)
    returns (t: string, k: string)
    requires inf.Keys <= kinds.Keys
    ensures var inf' := TransformAll(kinds, copyOwners, inf);
      if LookupWorkload(inf, name, namespace, types).None?
      then LookupWorkload(inf', name, namespace, types).None?
      else
        && t in types && t in inf && k in inf[t]
        && LookupWorkload(inf, name, namespace, types) == Some(inf[t][k])
        && LookupWorkload(inf', name, namespace, types) == Some(inf'[t][k])
    decreases |types|
  {
    t, k := "", "";
    if types != [] {
      if types[0] in inf && StoreKey(namespace, name) in inf[types[0]] {
        t, k := types[0], StoreKey(namespace, name);
      } else {
        t, k := LookupFindsSame(kinds, copyOwners, inf, name, namespace, types[1..]);
      }
    }
  }

  lemma NameLookupSurvives(
      kinds: map<string, string>, inf: Informers, copyOwners: bool, prefer: bool,
      name: string, namespace: string, types: seq<string>)
    requires Ready(kinds, inf, copyOwners, prefer)
    ensures var inf' := TransformAll(kinds, copyOwners, inf);
      && Acyclic(ReplicaSets(inf'))
      && LookupByName(inf', name, namespace, types, prefer) == LookupByName(inf, name, namespace, types, prefer)
  {
    TransformKeepsAcyclic(kinds, copyOwners, inf);
    var t, k := LookupFindsSame(kinds, copyOwners, inf, name, namespace, types);
    if LookupWorkload(inf, name, namespace, types).Some? {
      ExtractSurvives(kinds, inf, copyOwners, prefer, t, k);
    }
  }

  lemma {:induction false} IpLookupSurvives(
      kinds: map<string, string>, inf: Informers, copyOwners: bool, prefer: bool, ip: string, types: seq<string>)
    requires Ready(kinds, inf, copyOwners, prefer) && Watched(inf, types)
    ensures var inf' := TransformAll(kinds, copyOwners, inf);
      && Acyclic(ReplicaSets(inf')) && Watched(inf', types)
      && LookupByIp(inf', ip, types, prefer) == LookupByIp(inf, ip, types, prefer)
    decreases |types|
  {
    TransformKeepsAcyclic(kinds, copyOwners, inf);
    if types != [] {
      var inf' := TransformAll(kinds, copyOwners, inf);
      IpLookupSurvives(kinds, inf, copyOwners, prefer, ip, types[1..]);
      if Searchable(types[0]) {
        assert MatchingIp(inf', ip, types[0]) == MatchingIp(inf, ip, types[0]);
        if |MatchingIp(inf, ip, types[0])| == 1 {
          ExtractSurvives(kinds, inf, copyOwners, prefer, types[0], TheOnly(MatchingIp(inf, ip, types[0])));
        }
      }
    }
  }

  lemma HostnameLookupSurvives(
      kinds: map<string, string>, inf: Informers, copyOwners: bool, prefer: bool,
      host: string, namespace: string, types: seq<string>)
    requires Ready(kinds, inf, copyOwners, prefer)
    ensures var inf' := TransformAll(kinds, copyOwners, inf);
      && Acyclic(ReplicaSets(inf'))
      && LookupByHostname(inf', host, namespace, types, prefer) == LookupByHostname(inf, host, namespace, types, prefer)
  {
    var p := Hostname.Parse(host);
    NameLookupSurvives(kinds, inf, copyOwners, prefer, p.name, p.namespace, types);
    NameLookupSurvives(kinds, inf, copyOwners, prefer, p.name, namespace, types);
    NameLookupSurvives(kinds, inf, copyOwners, prefer, host, namespace, types);
    var t, k := LookupFindsSame(kinds, copyOwners, inf, p.name, p.namespace, [PODS]);
    if prefer && LookupWorkload(inf, p.name, p.namespace, [PODS]).Some? {
      ExtractSurvives(kinds, inf, copyOwners, prefer, t, k);
    }
  }

  lemma NotesSurvive(
      kinds: map<string, string>, inf: Informers, copyOwners: bool, note: Note, p: Hostname.Parsed, namespace: string)
    requires WellTyped(kinds, inf) && PODS in inf
    ensures NotedPods(TransformAll(kinds, copyOwners, inf)[PODS], note, p, namespace) ==
            NotedPods(inf[PODS], note, p, namespace)
  {
    var pods, pods' := inf[PODS], TransformAll(kinds, copyOwners, inf)[PODS];
    forall k | k in pods
      ensures pods'[k].goType == pods[k].goType
      ensures ServiceName(note, pods'[k]) == ServiceName(note, pods[k])
      ensures ServiceNamespace(note, pods'[k]) == ServiceNamespace(note, pods[k])
    {
    }
  }

  lemma OwnersSurvive(kinds: map<string, string>, inf: Informers, keys: set<string>)
    requires Ready(kinds, inf, true, true) && PODS in inf && keys <= inf[PODS].Keys
    ensures var inf' := TransformAll(kinds, true, inf);
      && Acyclic(ReplicaSets(inf'))
      && OwnersOf(inf', inf'[PODS], keys) == OwnersOf(inf, inf[PODS], keys)
  {
    TransformKeepsAcyclic(kinds, true, inf);
    var inf' := TransformAll(kinds, true, inf);
    forall k | k in keys ensures LookupOwner(inf', inf'[PODS][k]) == LookupOwner(inf, inf[PODS][k]) {
      ExtractSurvives(kinds, inf, true, true, PODS, k);
    }
  }

  lemma NoteLookupSurvives(
      kinds: map<string, string>, inf: Informers, copyOwners: bool, prefer: bool,
      note: Note, p: Hostname.Parsed, namespace: string)
    requires Ready(kinds, inf, copyOwners, prefer) && PODS in inf
    ensures var inf' := TransformAll(kinds, copyOwners, inf);
      && Acyclic(ReplicaSets(inf'))
      && LookupByNote(inf', inf'[PODS], note, p, namespace, prefer) ==
         LookupByNote(inf, inf[PODS], note, p, namespace, prefer)
  {
    TransformKeepsAcyclic(kinds, copyOwners, inf);
    NotesSurvive(kinds, inf, copyOwners, note, p, namespace);
    var found := NotedPods(inf[PODS], note, p, namespace);
    if |found| == 1 {
      ExtractSurvives(kinds, inf, copyOwners, prefer, PODS, TheOnly(found));
    } else if prefer {
      OwnersSurvive(kinds, inf, found);
    }
  }

  lemma OtelLookupSurvives(
      kinds: map<string, string>, inf: Informers, copyOwners: bool, prefer: bool,
      service: string, namespace: string, types: seq<string>)
    requires Ready(kinds, inf, copyOwners, prefer)
    ensures var inf' := TransformAll(kinds, copyOwners, inf);
      && Acyclic(ReplicaSets(inf'))
      && LookupByOtelService(inf', service, namespace, types, prefer) ==
         LookupByOtelService(inf, service, namespace, types, prefer)
  {
    TransformKeepsAcyclic(kinds, copyOwners, inf);
    if PODS in inf {
      NoteLookupSurvives(kinds, inf, copyOwners, prefer, LabelNote, Hostname.Parse(service), namespace);
      NoteLookupSurvives(kinds, inf, copyOwners, prefer, AnnotationNote, Hostname.Parse(service), namespace);
    }
  }

  // ----- The configured mappings -----

  datatype WorkloadMapping = WorkloadMapping(types: seq<string>, preferOwnerForPods: bool)

  /** Owner references are kept once any mapping prefers owners and expects pods. */
  predicate CopyOwners(mappings: seq<WorkloadMapping>) {
    exists m :: m in mappings && m.preferOwnerForPods && PODS in m.types
  }

  /** Every lookup of a mapping that does not prefer owners, or does and
      expects pods, answers from the stripped caches as from the full ones. */
  lemma StrippingIsInvisible(
      kinds: map<string, string>, inf: Informers, mappings: seq<WorkloadMapping>, m: WorkloadMapping,
      text: string, isIp: bool, namespaceRequired: bool, namespace: string)
    requires WellTyped(kinds, inf) && Acyclic(ReplicaSets(inf)) && Watched(inf, m.types)
    requires m in mappings && (m.preferOwnerForPods ==> PODS in m.types)
    ensures var inf' := TransformAll(kinds, CopyOwners(mappings), inf);
      && Acyclic(ReplicaSets(inf')) && Watched(inf', m.types)
      && LookupByName(inf', text, namespace, m.types, m.preferOwnerForPods) ==
         LookupByName(inf, text, namespace, m.types, m.preferOwnerForPods)
      && LookupByAddress(inf', text, isIp, namespaceRequired, namespace, m.types, m.preferOwnerForPods) ==
         LookupByAddress(inf, text, isIp, namespaceRequired, namespace, m.types, m.preferOwnerForPods)
  {
    var copyOwners := CopyOwners(mappings);
    NameLookupSurvives(kinds, inf, copyOwners, m.preferOwnerForPods, text, namespace, m.types);
    IpLookupSurvives(kinds, inf, copyOwners, m.preferOwnerForPods, text, m.types);
    HostnameLookupSurvives(kinds, inf, copyOwners, m.preferOwnerForPods, text, namespace, m.types);
    OtelLookupSurvives(kinds, inf, copyOwners, m.preferOwnerForPods, text, namespace, m.types);
  }

  // ----- Mappings that prefer owners without expecting pods -----

  /** A mapping that finds no pods need not say whether it prefers their owners. */
  lemma {:induction false} PreferenceIsMoot(
      inf: Informers, name: string, namespace: string, ip: string, types: seq<string>)
    requires Acyclic(ReplicaSets(inf)) && Watched(inf, types)
    requires forall t, k :: t in types && t in inf && k in inf[t] ==> KindOf(inf[t][k]) != POD
    ensures LookupByName(inf, name, namespace, types, true) == LookupByName(inf, name, namespace, types, false)
    ensures LookupByIp(inf, ip, types, true) == LookupByIp(inf, ip, types, false)
    decreases |types|
  {
    if types != [] {
      PreferenceIsMoot(inf, name, namespace, ip, types[1..]);
      if Searchable(types[0]) && |MatchingIp(inf, ip, types[0])| == 1 {
        assert TheOnly(MatchingIp(inf, ip, types[0])) in MatchingIp(inf, ip, types[0]);
      }
    }
  }

  /** Such a mapping's lookups by name and address survive without owners too. */
  lemma PodlessLookupsSurvive(
      kinds: map<string, string>, inf: Informers, name: string, namespace: string, ip: string, types: seq<string>)
    requires WellTyped(kinds, inf) && Acyclic(ReplicaSets(inf)) && Watched(inf, types)
    requires forall t :: t in types && t in inf ==> kinds[t] != POD
    ensures var inf' := TransformAll(kinds, false, inf);
      && Acyclic(ReplicaSets(inf')) && Watched(inf', types)
      && LookupByName(inf', name, namespace, types, true) == LookupByName(inf, name, namespace, types, true)
      && LookupByIp(inf', ip, types, true) == LookupByIp(inf, ip, types, true)
  {
    NameLookupSurvives(kinds, inf, false, false, name, namespace, types);
    IpLookupSurvives(kinds, inf, false, false, ip, types);
    PreferenceIsMoot(inf, name, namespace, ip, types);
    PreferenceIsMoot(TransformAll(kinds, false, inf), name, namespace, ip, types);
  }

  /** The host names that ask for a pod by name and namespace. */
  predicate NamesPod(host: string) {
    var p := Hostname.Parse(host);
    p.kind == Hostname.POD && p.name != "" && p.namespace != ""
  }

  predicate NamesCachedPod(inf: Informers, host: string) {
    var p := Hostname.Parse(host);
    NamesPod(host) && PODS in inf && StoreKey(p.namespace, p.name) in inf[PODS]
  }

  function NamedPod(inf: Informers, host: string): Workload
    requires NamesCachedPod(inf, host)
  {
    var p := Hostname.Parse(host);
    inf[PODS][StoreKey(p.namespace, p.name)]
  }

  /** The chain of first owners above `w` ends at the given kind and name. */
  ghost predicate ChainEndsAt(rs: Store, w: Workload, kind: string, name: string) {
    exists chain: seq<OwnerRef> ::
      IsChain(rs, w, chain) && chain[|chain| - 1].kind == kind && chain[|chain| - 1].name == name
  }

  /** The host names a cached pod that has an owner other than itself. */
  ghost predicate NamesOwnedPod(inf: Informers, host: string) {
    && NamesCachedPod(inf, host)
    && var pod := NamedPod(inf, host);
    FirstOwner(pod.owners).Some? && !ChainEndsAt(ReplicaSets(inf), pod, POD, pod.name)
  }

  lemma {:induction false} ChainIsUnique(rs: Store, w: Workload, a: seq<OwnerRef>, b: seq<OwnerRef>)
    requires IsChain(rs, w, a) && IsChain(rs, w, b)
    ensures a == b
    decreases |a|
  {
    var next := NextKey(rs, w);
    if next.Some? && FirstOwner(rs[next.value].owners).Some? {
      ChainIsUnique(rs, rs[next.value], a[1..], b[1..]);
      assert a == [a[0]] + a[1..] && b == [b[0]] + b[1..];
    }
  }

  /** A key with one slash comes apart in one way. */
  lemma OneSlash(a: string, b: string, c: string, d: string)
    requires a + "/" + b == c + "/" + d && '/' !in a && '/' !in b
    ensures a == c && b == d
  {
    var whole := a + "/" + b;
    assert whole[|c|] == '/';
    assert forall i :: 0 <= i < |whole| && i != |a| ==> whole[i] != '/';
    assert a == whole[..|a|] && c == whole[..|c|];
    assert b == whole[|a| + 1..] && d == whole[|c| + 1..];
  }

  lemma NamedPodIsItself(inf: Informers, host: string)
    requires NamesCachedPod(inf, host) && WellKeyed(inf[PODS])
    ensures var p, pod := Hostname.Parse(host), NamedPod(inf, host);
      pod.name == p.name && pod.namespace == p.namespace && '/' !in pod.namespace
  {
    var p, pod := Hostname.Parse(host), NamedPod(inf, host);
    var key := StoreKey(p.namespace, p.name);
    assert key[|p.namespace|] == '/';
    assert pod.namespace != "";
    OneSlash(pod.namespace, pod.name, p.namespace, p.name);
  }

  /** The full caches answer a pod's host name with its owner or with itself. */
  lemma OwnedPodAnswer(inf: Informers, host: string)
    requires Acyclic(ReplicaSets(inf)) && WellKeyed(ReplicaSets(inf))
    requires NamesCachedPod(inf, host) && WellKeyed(inf[PODS])
    ensures var p := Hostname.Parse(host);
      LookupOwner(inf, NamedPod(inf, host)) in {EMPTY, LookupResult(p.name, p.namespace, POD)} <==>
      !NamesOwnedPod(inf, host)
  {
    NamedPodIsItself(inf, host);
    var rs, pod := ReplicaSets(inf), NamedPod(inf, host);
    var chain := OwnerIsEndOfChain(inf, pod);
    if FirstOwner(pod.owners).Some? && ChainEndsAt(rs, pod, POD, pod.name) {
      var other: seq<OwnerRef> :|
        IsChain(rs, pod, other) && other[|other| - 1].kind == POD && other[|other| - 1].name == pod.name;
      ChainIsUnique(rs, pod, chain, other);
    }
  }

  /** Stripped of owners, the caches answer it with the pod itself. */
  lemma HostAnswersAgreeIff(
      kinds: map<string, string>, inf: Informers, host: string, namespace: string, types: seq<string>)
    requires WellTyped(kinds, inf) && Acyclic(ReplicaSets(inf)) && Watched(inf, types)
    requires WellKeyed(ReplicaSets(inf)) && (PODS in inf ==> WellKeyed(inf[PODS]))
    requires forall t :: t in types && t in inf ==> kinds[t] != POD
    ensures var inf' := TransformAll(kinds, false, inf);
      && Acyclic(ReplicaSets(inf'))
      && (LookupByHostname(inf', host, namespace, types, true) == LookupByHostname(inf, host, namespace, types, true)
          <==> !NamesOwnedPod(inf, host))
  {
    var inf', p := TransformAll(kinds, false, inf), Hostname.Parse(host);
    PodlessLookupsSurvive(kinds, inf, p.name, p.namespace, host, types);
    PodlessLookupsSurvive(kinds, inf, p.name, namespace, host, types);
    PodlessLookupsSurvive(kinds, inf, host, namespace, host, types);
    LookupInOne(inf, p.name, p.namespace, PODS);
    LookupInOne(inf', p.name, p.namespace, PODS);
    if NamesCachedPod(inf, host) {
      OwnerOfFirst(inf', NamedPod(inf', host), []);
      OwnedPodAnswer(inf, host);
    }
  }

  /** A mapping that prefers owners without expecting pods gets every name and
      address lookup answered alike, unless no other mapping has the owners
      copied and the text is the host name of a cached pod with an owner. */
  lemma StrippingShowsIff(
      kinds: map<string, string>, inf: Informers, mappings: seq<WorkloadMapping>, m: WorkloadMapping,
      text: string, isIp: bool, namespaceRequired: bool, namespace: string)
    requires WellTyped(kinds, inf) && Acyclic(ReplicaSets(inf)) && Watched(inf, m.types)
    requires WellKeyed(ReplicaSets(inf)) && (PODS in inf ==> WellKeyed(inf[PODS]))
    requires m in mappings && m.preferOwnerForPods && PODS !in m.types
    requires forall t :: t in m.types && t in inf ==> kinds[t] != POD
    ensures var inf' := TransformAll(kinds, CopyOwners(mappings), inf);
      && Acyclic(ReplicaSets(inf')) && Watched(inf', m.types)
      && LookupByName(inf', text, namespace, m.types, true) == LookupByName(inf, text, namespace, m.types, true)
      && (LookupByAddress(inf', text, isIp, namespaceRequired, namespace, m.types, true) ==
          LookupByAddress(inf, text, isIp, namespaceRequired, namespace, m.types, true)
          <==> CopyOwners(mappings) || isIp || !NamesOwnedPod(inf, text))
  {
    if CopyOwners(mappings) {
      NameLookupSurvives(kinds, inf, true, true, text, namespace, m.types);
      IpLookupSurvives(kinds, inf, true, true, text, m.types);
      HostnameLookupSurvives(kinds, inf, true, true, text, namespace, m.types);
    } else {
      PodlessLookupsSurvive(kinds, inf, text, namespace, text, m.types);
      HostAnswersAgreeIff(kinds, inf, text, namespace, m.types);
      PodHostIsAnswered(inf, text, namespace, m.types);
    }
  }

  lemma PodHostIsAnswered(inf: Informers, host: string, namespace: string, types: seq<string>)
    requires Acyclic(ReplicaSets(inf))
    ensures NamesPod(host) ==> LookupByHostname(inf, host, namespace, types, true) != EMPTY
  {
  }

  // A pod p in namespace n that belongs to deployment d, and a mapping that
  // prefers owners but expects deployments, beside one that expects pods.

  const OWNED_POD: Workload :=
    Workload(PodObject, POD, "p", "n", [OwnerRef("Deployment", "d", "1")], map[], map[], false, [], [], [])
  const ONE_POD: Informers := map[PODS := map["n/p" := OWNED_POD]]
  const POD_KINDS: map<string, string> := map[PODS := POD]
  const PREFERRING: WorkloadMapping := WorkloadMapping(["deployments"], true)
  const PLAIN: WorkloadMapping := WorkloadMapping([PODS], false)

  /** What a cached pod's host name is answered with. */
  lemma CachedPodAnswer(inf: Informers, p: Hostname.Parsed, namespace: string, types: seq<string>)
    requires Acyclic(ReplicaSets(inf)) && PODS in inf && StoreKey(p.namespace, p.name) in inf[PODS]
    requires p.name != "" && p.namespace != "" && Hostname.DotFree(p.name) && Hostname.DotFree(p.namespace)
    requires p.kind == Hostname.POD
    ensures var owner := LookupOwner(inf, inf[PODS][StoreKey(p.namespace, p.name)]);
      LookupByHostname(inf, Hostname.Print(Hostname.Typed, p), namespace, types, true) ==
      if owner != EMPTY then owner else LookupResult(p.name, p.namespace, POD)
  {
    Hostname.ParseInvertsPrint(Hostname.Typed, p);
    LookupInOne(inf, p.name, p.namespace, PODS);
  }

  lemma OwnersNotCopied()
    ensures !CopyOwners([PREFERRING, PLAIN])
  {
    assert "deployments"[0] != PODS[0];
  }

  /** Its host name is answered with the deployment from the full caches, with
      the pod itself from the stripped ones. */
  lemma OwnerIsLost()
    ensures !CopyOwners([PREFERRING, PLAIN])
    ensures var inf' := TransformAll(POD_KINDS, false, ONE_POD);
      var host := Hostname.Print(Hostname.Typed, Hostname.Parsed("p", "n", Hostname.POD));
      && Acyclic(ReplicaSets(ONE_POD)) && Acyclic(ReplicaSets(inf'))
      && LookupByHostname(ONE_POD, host, "", PREFERRING.types, true) == LookupResult("d", "n", "Deployment")
      && LookupByHostname(inf', host, "", PREFERRING.types, true) == LookupResult("p", "n", POD)
  {
    OwnersNotCopied();
    var inf' := TransformAll(POD_KINDS, false, ONE_POD);
    assert StoreKey("n", "p") == "n/p";
    CachedPodAnswer(ONE_POD, Hostname.Parsed("p", "n", Hostname.POD), "", PREFERRING.types);
    CachedPodAnswer(inf', Hostname.Parsed("p", "n", Hostname.POD), "", PREFERRING.types);
    OwnerOfFirst(ONE_POD, OWNED_POD, OWNED_POD.owners);
    OwnerOfFirst(inf', inf'[PODS]["n/p"], []);
  }
}
