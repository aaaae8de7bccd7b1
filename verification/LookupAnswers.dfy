/**
 * What the lookups answer, told from the host name as it is written, from the
 * cached objects and from their owner references.
 */
module LookupAnswers {
  import opened Outcomes
  import opened WorkloadLookup
  import Hostname

  const NO_ANSWER := LookupResult("", "", "")

  predicate HasOwner(w: Workload) {
    exists o :: o in w.owners && o.kind != ""
  }

  /** `o` is the first owner reference that has a kind. */
  ghost predicate IsFirstOwner(w: Workload, o: OwnerRef) {
    exists i :: 0 <= i < |w.owners| && w.owners[i] == o && o.kind != "" &&
                forall j :: 0 <= j < i ==> w.owners[j].kind == ""
  }

  lemma {:induction false} FirstOwnerIff(w: Workload, owners: seq<OwnerRef>, skipped: nat)
    requires skipped <= |w.owners| && owners == w.owners[skipped..]
    requires forall j :: 0 <= j < skipped ==> w.owners[j].kind == ""
    ensures FirstOwner(owners).Some? <==> HasOwner(w)
    ensures FirstOwner(owners).Some? ==> IsFirstOwner(w, FirstOwner(owners).value)
    decreases |owners|
  {
    if owners == [] {
      assert forall o :: o in w.owners ==> o.kind == "";
    } else if owners[0].kind != "" {
      assert w.owners[skipped] == owners[0];
    } else {
      FirstOwnerIff(w, owners[1..], skipped + 1);
    }
  }

  lemma OwnedIffHasOwner(w: Workload)
    ensures FirstOwner(w.owners).Some? <==> HasOwner(w)
    ensures FirstOwner(w.owners).Some? ==> IsFirstOwner(w, FirstOwner(w.owners).value)
  {
    assert w.owners[0..] == w.owners;
    FirstOwnerIff(w, w.owners, 0);
  }

  // ----- The chain of owners, from the cached ReplicaSets -----

  /** The cached ReplicaSet of that name has an owner itself. */
  predicate OwnedReplicaSet(inf: Informers, namespace: string, o: OwnerRef) {
    var key := if namespace == "" then o.name else namespace + "/" + o.name;
    o.kind == "ReplicaSet" && "replicasets" in inf && key in inf["replicasets"] && HasOwner(inf["replicasets"][key])
  }

  function ReplicaSetOf(inf: Informers, namespace: string, o: OwnerRef): Workload
    requires OwnedReplicaSet(inf, namespace, o)
  {
    inf["replicasets"][if namespace == "" then o.name else namespace + "/" + o.name]
  }

  /** From the first owner of `w` through owned ReplicaSets to an owner that is none. */
  ghost predicate OwnerChain(inf: Informers, w: Workload, chain: seq<OwnerRef>)
    decreases |chain|
  {
    && chain != [] && IsFirstOwner(w, chain[0])
    && if OwnedReplicaSet(inf, w.namespace, chain[0])
       then OwnerChain(inf, ReplicaSetOf(inf, w.namespace, chain[0]), chain[1..])
       else |chain| == 1
  }

  lemma NextIsOwned(inf: Informers, w: Workload)
    requires FirstOwner(w.owners).Some?
    ensures var rs, next, first := ReplicaSets(inf), NextKey(ReplicaSets(inf), w), FirstOwner(w.owners).value;
      && (next.Some? && FirstOwner(rs[next.value].owners).Some? <==> OwnedReplicaSet(inf, w.namespace, first))
      && (OwnedReplicaSet(inf, w.namespace, first) ==> rs[next.value] == ReplicaSetOf(inf, w.namespace, first))
  {
    var rs, next := ReplicaSets(inf), NextKey(ReplicaSets(inf), w);
    if next.Some? {
      OwnedIffHasOwner(rs[next.value]);
    }
  }

  lemma {:induction false} ChainIsOwnerChain(inf: Informers, w: Workload, chain: seq<OwnerRef>)
    requires IsChain(ReplicaSets(inf), w, chain)
    ensures OwnerChain(inf, w, chain)
    decreases |chain|
  {
    OwnedIffHasOwner(w);
    NextIsOwned(inf, w);
    if OwnedReplicaSet(inf, w.namespace, chain[0]) {
      ChainIsOwnerChain(inf, ReplicaSetOf(inf, w.namespace, chain[0]), chain[1..]);
    }
  }

  /** The owner of an object is the end of that chain, in the namespace of the
      object. */
  lemma OwnerAnswers(inf: Informers, w: Workload) returns (chain: seq<OwnerRef>)
    requires Acyclic(ReplicaSets(inf)) && WellKeyed(ReplicaSets(inf)) && OwnersUnambiguous(ReplicaSets(inf), w)
    ensures if HasOwner(w)
            then OwnerChain(inf, w, chain) &&
                 LookupOwner(inf, w) == LookupResult(chain[|chain| - 1].name, w.namespace, chain[|chain| - 1].kind)
            else LookupOwner(inf, w) == NO_ANSWER
  {
    OwnedIffHasOwner(w);
    chain := OwnerIsEndOfChain(inf, w);
    if HasOwner(w) {
      ChainIsOwnerChain(inf, w, chain);
    }
  }

  // ----- The answer an object gives -----

  /** The kind an object carries, or else the one its Go type implies. */
  ghost predicate IsKindOf(w: Workload, kind: string) {
    if w.kind != "" then kind == w.kind
    else kind == match w.goType case PodObject => "Pod" case ServiceObject => "Service" case OtherObject => ""
  }

  /** A pod with an owner answers with that owner where owners are preferred,
      any other object with itself, and one of no kind not at all. */
  ghost predicate Gives(inf: Informers, w: Workload, preferPodOwner: bool, r: LookupResult)
    requires Acyclic(ReplicaSets(inf))
  {
    if preferPodOwner && IsKindOf(w, "Pod") && HasOwner(w) then r == LookupOwner(inf, w)
    else if IsKindOf(w, "") then r == NO_ANSWER
    else r.name == w.name && r.namespace == w.namespace && IsKindOf(w, r.kind)
  }

  lemma ExtractGives(inf: Informers, w: Workload, preferPodOwner: bool)
    requires Acyclic(ReplicaSets(inf))
    ensures Gives(inf, w, preferPodOwner, ExtractWorkloadKind(inf, w, preferPodOwner))
  {
    OwnedIff(inf, w);
    OwnedIffHasOwner(w);
  }

  lemma GivesOne(inf: Informers, w: Workload, preferPodOwner: bool, r: LookupResult, r': LookupResult)
    requires Acyclic(ReplicaSets(inf)) && Gives(inf, w, preferPodOwner, r) && Gives(inf, w, preferPodOwner, r')
    ensures r == r'
  {
  }

  // ----- Lookup by name -----

  /** The store of a type holds an object of the name and namespace. */
  predicate IsCached(inf: Informers, workloadType: string, namespace: string, name: string) {
    workloadType in inf && (if namespace == "" then name else namespace + "/" + name) in inf[workloadType]
  }

  function CachedObject(inf: Informers, workloadType: string, namespace: string, name: string): Workload
    requires IsCached(inf, workloadType, namespace, name)
  {
    inf[workloadType][if namespace == "" then name else namespace + "/" + name]
  }

  /** The object in the first expected type that has one decides. */
  ghost predicate ByName(
      inf: Informers, name: string, namespace: string, types: seq<string>, preferPodOwner: bool, r: LookupResult)
    requires Acyclic(ReplicaSets(inf))
  {
    || (exists i :: 0 <= i < |types| && IsCached(inf, types[i], namespace, name) &&
                    (forall j :: 0 <= j < i ==> !IsCached(inf, types[j], namespace, name)) &&
                    Gives(inf, CachedObject(inf, types[i], namespace, name), preferPodOwner, r))
    || (r == NO_ANSWER && forall i :: 0 <= i < |types| ==> !IsCached(inf, types[i], namespace, name))
  }

  lemma {:induction false} LookupFindsFirst(inf: Informers, name: string, namespace: string, types: seq<string>)
    returns (i: nat)
    ensures var w := LookupWorkload(inf, name, namespace, types);
      && (w.None? <==> forall j :: 0 <= j < |types| ==> !IsCached(inf, types[j], namespace, name))
      && (w.Some? ==>
            && i < |types| && IsCached(inf, types[i], namespace, name)
            && w.value == CachedObject(inf, types[i], namespace, name)
            && forall j :: 0 <= j < i ==> !IsCached(inf, types[j], namespace, name))
  {
    i := 0;
    if types != [] && !IsCached(inf, types[0], namespace, name) {
      var rest := LookupFindsFirst(inf, name, namespace, types[1..]);
      assert forall j :: 0 < j < |types| ==> types[j] == types[1..][j - 1];
      i := rest + 1;
    }
  }

  lemma ByNameFinds(inf: Informers, name: string, namespace: string, types: seq<string>, preferPodOwner: bool)
    requires Acyclic(ReplicaSets(inf))
    ensures ByName(inf, name, namespace, types, preferPodOwner,
                   LookupByName(inf, name, namespace, types, preferPodOwner))
  {
    var i := LookupFindsFirst(inf, name, namespace, types);
    var w := LookupWorkload(inf, name, namespace, types);
    if w.Some? {
      ExtractGives(inf, w.value, preferPodOwner);
    }
  }

  lemma ByNameOne(
      inf: Informers, name: string, namespace: string, types: seq<string>, preferPodOwner: bool, r: LookupResult)
    requires Acyclic(ReplicaSets(inf)) && ByName(inf, name, namespace, types, preferPodOwner, r)
    ensures r == LookupByName(inf, name, namespace, types, preferPodOwner)
  {
    var i := LookupFindsFirst(inf, name, namespace, types);
    var w := LookupWorkload(inf, name, namespace, types);
    if w.Some? {
      ExtractGives(inf, w.value, preferPodOwner);
      var k :| 0 <= k < |types| && IsCached(inf, types[k], namespace, name) &&
        (forall j :: 0 <= j < k ==> !IsCached(inf, types[j], namespace, name)) &&
        Gives(inf, CachedObject(inf, types[k], namespace, name), preferPodOwner, r);
      assert k == i;
      GivesOne(inf, w.value, preferPodOwner, r, ExtractWorkloadKind(inf, w.value, preferPodOwner));
    }
  }

  // ----- Hosts that spell out a type -----

  /** The three ways to write a name, a namespace and a type as a host. */
  predicate Spells(host: string, name: string, namespace: string, kind: string) {
    var typed := name + "." + namespace + "." + kind;
    host == typed || host == typed + ".cluster.local" || host == typed + ".cluster.local."
  }

  lemma SpelledIsPrinted(host: string, p: Hostname.Parsed) returns (form: Hostname.Form)
    requires Spells(host, p.name, p.namespace, p.kind)
    ensures (form.Typed? || form.Qualified? || form.Absolute?) && host == Hostname.Print(form, p)
  {
    var a, b, c := p.name, p.namespace, p.kind;
    var typed := a + "." + b + "." + c;
    JoinThree(a, b, c);
    JoinFive(a, b, c, "cluster", "local");
    JoinSix(a, b, c, "cluster", "local", "");
    form := if host == typed then Hostname.Typed
            else if host == typed + ".cluster.local" then Hostname.Qualified else Hostname.Absolute;
    assert typed + ".cluster.local" == typed + "." + "cluster" + "." + "local";
    assert typed + ".cluster.local." == typed + "." + "cluster" + "." + "local" + "." + "";
  }

  lemma JoinTwo(a: string, b: string)
    ensures Hostname.Join([a, b]) == a + "." + b
  {
    assert [a, b][1..] == [b] && |[b]| == 1;
    assert Hostname.Join([b]) == b;
  }

  lemma JoinThree(a: string, b: string, c: string)
    ensures Hostname.Join([a, b, c]) == a + "." + b + "." + c
  {
    assert [a, b, c][1..] == [b, c];
    JoinTwo(b, c);
  }

  lemma JoinFive(a: string, b: string, c: string, d: string, e: string)
    ensures Hostname.Join([a, b, c, d, e]) == a + "." + b + "." + c + "." + d + "." + e
  {
    assert [a, b, c, d, e][1..] == [b, c, d, e] && [b, c, d, e][1..] == [c, d, e];
    JoinThree(c, d, e);
  }

  lemma JoinSix(a: string, b: string, c: string, d: string, e: string, f: string)
    ensures Hostname.Join([a, b, c, d, e, f]) == a + "." + b + "." + c + "." + d + "." + e + "." + f
  {
    assert [a, b, c, d, e, f][1..] == [b, c, d, e, f];
    JoinFive(b, c, d, e, f);
  }

  lemma SpelledParses(host: string, p: Hostname.Parsed)
    requires '.' !in p.name && '.' !in p.namespace && (p.kind == "svc" || p.kind == "pod")
    requires Spells(host, p.name, p.namespace, p.kind)
    ensures Hostname.Parse(host) == p
  {
    var form := SpelledIsPrinted(host, p);
    Hostname.ParseInvertsPrint(form, p);
  }

  /** A service host is the service it names, whatever is cached. */
  lemma ServiceHostAnswers(
      inf: Informers, host: string, name: string, namespace: string, namespaceFromAttr: string, types: seq<string>,
      preferPodOwner: bool)
    requires Acyclic(ReplicaSets(inf)) && '.' !in name && '.' !in namespace && Spells(host, name, namespace, "svc")
    ensures LookupByHostname(inf, host, namespaceFromAttr, types, preferPodOwner) ==
            if name == "" || namespace == "" then NO_ANSWER else LookupResult(name, namespace, "Service")
  {
    SpelledParses(host, Hostname.Parsed(name, namespace, "svc"));
  }

  /** A pod host is the owner of the pod it names, where owners are preferred
      and the cached pod has one, or else the pod, cached or not. */
  lemma PodHostAnswers(
      inf: Informers, host: string, name: string, namespace: string, namespaceFromAttr: string, types: seq<string>,
      preferPodOwner: bool)
    requires Acyclic(ReplicaSets(inf)) && '.' !in name && '.' !in namespace && Spells(host, name, namespace, "pod")
    ensures LookupByHostname(inf, host, namespaceFromAttr, types, preferPodOwner) ==
            if name == "" || namespace == "" then NO_ANSWER
            else if preferPodOwner && IsCached(inf, "pods", namespace, name) &&
                    HasOwner(CachedObject(inf, "pods", namespace, name))
            then LookupOwner(inf, CachedObject(inf, "pods", namespace, name))
            else LookupResult(name, namespace, "Pod")
  {
    SpelledParses(host, Hostname.Parsed(name, namespace, "pod"));
    LookupInOne(inf, name, namespace, PODS);
    if IsCached(inf, "pods", namespace, name) {
      OwnedIff(inf, CachedObject(inf, "pods", namespace, name));
      OwnedIffHasOwner(CachedObject(inf, "pods", namespace, name));
    }
  }

  /** So the host of a cached pod with an owner is the end of its chain of owners. */
  lemma PodHostAnswersOwner(
      inf: Informers, host: string, name: string, namespace: string, namespaceFromAttr: string, types: seq<string>)
    returns (chain: seq<OwnerRef>)
    requires Acyclic(ReplicaSets(inf)) && WellKeyed(ReplicaSets(inf))
    requires '.' !in name && '.' !in namespace && name != "" && namespace != "" && Spells(host, name, namespace, "pod")
    requires IsCached(inf, "pods", namespace, name)
    requires var pod := CachedObject(inf, "pods", namespace, name);
      HasOwner(pod) && OwnersUnambiguous(ReplicaSets(inf), pod)
    ensures var pod := CachedObject(inf, "pods", namespace, name);
      && OwnerChain(inf, pod, chain)
      && LookupByHostname(inf, host, namespaceFromAttr, types, true) ==
         LookupResult(chain[|chain| - 1].name, pod.namespace, chain[|chain| - 1].kind)
  {
    PodHostAnswers(inf, host, name, namespace, namespaceFromAttr, types, true);
    chain := OwnerAnswers(inf, CachedObject(inf, "pods", namespace, name));
  }

  // ----- Hosts that do not -----

  /** The names and namespaces tried for a host that spells out no type: its
      own, or its name in the namespace of the attribute, and then the whole
      host there. */
  ghost predicate IsTried(
      host: string, name: string, namespace: string, namespaceFromAttr: string, tries: seq<(string, string)>) {
    var whole := if namespaceFromAttr == "" || host == "" then [] else [(host, namespaceFromAttr)];
    if name != "" && namespace != "" then tries == [(name, namespace)] + whole
    else if name != "" && namespaceFromAttr != "" then tries == [(name, namespaceFromAttr)] + whole
    else tries == whole
  }

  /** `host` is a name, a name and a namespace, or in no known form. */
  ghost predicate Untyped(host: string, name: string, namespace: string) {
    || (host == name && namespace == "" && '.' !in name)
    || (host == name + "." + namespace && '.' !in name && '.' !in namespace)
    || (name == "" && namespace == "" && forall form, p: Hostname.Parsed ::
          Hostname.DotFree(p.name) && Hostname.DotFree(p.namespace) && Hostname.Carries(form, p) ==>
          host != Hostname.Print(form, p))
  }

  lemma UntypedParses(host: string, name: string, namespace: string)
    requires Untyped(host, name, namespace)
    ensures Hostname.Parse(host) == Hostname.Parsed(name, namespace, "")
  {
    var p := Hostname.Parsed(name, namespace, "");
    if host == name && namespace == "" && '.' !in name {
      assert Hostname.Print(Hostname.Bare, p) == host;
      Hostname.ParseInvertsPrint(Hostname.Bare, p);
    } else if host == name + "." + namespace && '.' !in name && '.' !in namespace {
      JoinTwo(name, namespace);
      assert Hostname.Print(Hostname.Namespaced, p) == host;
      Hostname.ParseInvertsPrint(Hostname.Namespaced, p);
    } else if Hostname.Parse(host) != Hostname.UNKNOWN {
      Hostname.ParsedIsAPrint(host);
      assert false;
    }
  }

  /** The first try that finds something decides. */
  ghost predicate FirstFound(
      inf: Informers, tries: seq<(string, string)>, types: seq<string>, preferPodOwner: bool, r: LookupResult)
    requires Acyclic(ReplicaSets(inf))
  {
    || (exists i :: 0 <= i < |tries| && r != NO_ANSWER &&
                    ByName(inf, tries[i].0, tries[i].1, types, preferPodOwner, r) &&
                    forall j :: 0 <= j < i ==>
                      ByName(inf, tries[j].0, tries[j].1, types, preferPodOwner, NO_ANSWER))
    || (r == NO_ANSWER && forall j :: 0 <= j < |tries| ==>
          ByName(inf, tries[j].0, tries[j].1, types, preferPodOwner, NO_ANSWER))
  }

  function TryAll(inf: Informers, tries: seq<(string, string)>, types: seq<string>, preferPodOwner: bool): LookupResult
    requires Acyclic(ReplicaSets(inf))
  {
    if tries == [] then EMPTY
    else
      var r := LookupByName(inf, tries[0].0, tries[0].1, types, preferPodOwner);
      if r != EMPTY then r else TryAll(inf, tries[1..], types, preferPodOwner)
  }

  lemma TryOne(inf: Informers, name: string, namespace: string, types: seq<string>, preferPodOwner: bool)
    requires Acyclic(ReplicaSets(inf))
    ensures TryAll(inf, [(name, namespace)], types, preferPodOwner) ==
            LookupByName(inf, name, namespace, types, preferPodOwner)
  {
    assert [(name, namespace)][1..] == [];
    assert TryAll(inf, [], types, preferPodOwner) == EMPTY;
  }

  lemma FirstFoundLater(
      inf: Informers, tries: seq<(string, string)>, types: seq<string>, preferPodOwner: bool, r: LookupResult)
    requires Acyclic(ReplicaSets(inf)) && tries != [] && FirstFound(inf, tries[1..], types, preferPodOwner, r)
    requires ByName(inf, tries[0].0, tries[0].1, types, preferPodOwner, NO_ANSWER)
    ensures FirstFound(inf, tries, types, preferPodOwner, r)
  {
    var rest := tries[1..];
    assert forall j :: 0 < j < |tries| ==> tries[j] == rest[j - 1];
    if r != NO_ANSWER {
      var i :| 0 <= i < |rest| && ByName(inf, rest[i].0, rest[i].1, types, preferPodOwner, r) &&
        forall j :: 0 <= j < i ==> ByName(inf, rest[j].0, rest[j].1, types, preferPodOwner, NO_ANSWER);
      assert tries[i + 1] == rest[i];
    }
  }

  lemma {:induction false} TryAllFindsFirst(
      inf: Informers, tries: seq<(string, string)>, types: seq<string>, preferPodOwner: bool)
    requires Acyclic(ReplicaSets(inf))
    ensures FirstFound(inf, tries, types, preferPodOwner, TryAll(inf, tries, types, preferPodOwner))
  {
    if tries != [] {
      ByNameFinds(inf, tries[0].0, tries[0].1, types, preferPodOwner);
      if LookupByName(inf, tries[0].0, tries[0].1, types, preferPodOwner) == EMPTY {
        TryAllFindsFirst(inf, tries[1..], types, preferPodOwner);
        FirstFoundLater(inf, tries, types, preferPodOwner, TryAll(inf, tries, types, preferPodOwner));
      }
    }
  }

  lemma TryThen(
      inf: Informers, name: string, namespace: string, rest: seq<(string, string)>, types: seq<string>,
      preferPodOwner: bool)
    requires Acyclic(ReplicaSets(inf))
    ensures var r := LookupByName(inf, name, namespace, types, preferPodOwner);
      TryAll(inf, [(name, namespace)] + rest, types, preferPodOwner) ==
      if r != EMPTY then r else TryAll(inf, rest, types, preferPodOwner)
  {
    assert ([(name, namespace)] + rest)[1..] == rest;
  }

  lemma HostIsTried(
      inf: Informers, host: string, name: string, namespace: string, namespaceFromAttr: string, types: seq<string>,
      preferPodOwner: bool, tries: seq<(string, string)>)
    requires Acyclic(ReplicaSets(inf)) && Untyped(host, name, namespace)
    requires IsTried(host, name, namespace, namespaceFromAttr, tries)
    ensures LookupByHostname(inf, host, namespaceFromAttr, types, preferPodOwner) ==
            TryAll(inf, tries, types, preferPodOwner)
  {
    UntypedParses(host, name, namespace);
    var whole := if namespaceFromAttr == "" || host == "" then [] else [(host, namespaceFromAttr)];
    TryOne(inf, host, namespaceFromAttr, types, preferPodOwner);
    TryThen(inf, name, namespace, whole, types, preferPodOwner);
    TryThen(inf, name, namespaceFromAttr, whole, types, preferPodOwner);
  }

  /** Any other host answers with the first expected type that has the object,
      in the namespace of the host, else in that of the attribute, else under
      the whole host there. */
  lemma UntypedHostAnswers(
      inf: Informers, host: string, name: string, namespace: string, namespaceFromAttr: string, types: seq<string>,
      preferPodOwner: bool, tries: seq<(string, string)>)
    requires Acyclic(ReplicaSets(inf)) && Untyped(host, name, namespace)
    requires IsTried(host, name, namespace, namespaceFromAttr, tries)
    ensures FirstFound(inf, tries, types, preferPodOwner,
                       LookupByHostname(inf, host, namespaceFromAttr, types, preferPodOwner))
  {
    HostIsTried(inf, host, name, namespace, namespaceFromAttr, types, preferPodOwner, tries);
    TryAllFindsFirst(inf, tries, types, preferPodOwner);
  }

  // ----- Lookup by address -----

  /** The pod or service has the address: not one on the host network, and not
      the address None of a headless service. */
  predicate HasAddress(workloadType: string, w: Workload, ip: string) {
    || (workloadType == "pods" && w.goType.PodObject? && !w.hostNetwork && ip in w.podIPs)
    || (workloadType == "services" && w.goType.ServiceObject? && ip != "" && ip != "None" &&
        (ip in w.clusterIPs || ip in w.externalIPs))
  }

  /** `k` holds the only object of the type with the address. */
  ghost predicate OnlyOne(inf: Informers, workloadType: string, ip: string, k: string) {
    && workloadType in inf && k in inf[workloadType] && HasAddress(workloadType, inf[workloadType][k], ip)
    && forall k' :: k' in inf[workloadType] && HasAddress(workloadType, inf[workloadType][k'], ip) ==> k' == k
  }

  /** The first expected type with a single object of the address decides. */
  ghost predicate ByIp(inf: Informers, ip: string, types: seq<string>, preferPodOwner: bool, r: LookupResult)
    requires Acyclic(ReplicaSets(inf))
  {
    || (exists i, k :: 0 <= i < |types| && OnlyOne(inf, types[i], ip, k) &&
                       (forall j, k' :: 0 <= j < i ==> !OnlyOne(inf, types[j], ip, k')) &&
                       Gives(inf, inf[types[i]][k], preferPodOwner, r))
    || (r == NO_ANSWER && forall i, k :: 0 <= i < |types| ==> !OnlyOne(inf, types[i], ip, k))
  }

  lemma OnlyOneIff(inf: Informers, workloadType: string, ip: string)
    requires Searchable(workloadType) ==> workloadType in inf
    ensures Searchable(workloadType) && |MatchingIp(inf, ip, workloadType)| == 1 <==>
            exists k :: OnlyOne(inf, workloadType, ip, k)
    ensures Searchable(workloadType) && |MatchingIp(inf, ip, workloadType)| == 1 ==>
            OnlyOne(inf, workloadType, ip, TheOnly(MatchingIp(inf, ip, workloadType)))
  {
    if Searchable(workloadType) {
      var keys := MatchingIp(inf, ip, workloadType);
      assert forall k :: k in keys <==> k in inf[workloadType] && HasAddress(workloadType, inf[workloadType][k], ip);
      assert forall k :: OnlyOne(inf, workloadType, ip, k) ==> keys == {k};
      if |keys| == 1 {
        assert OnlyOne(inf, workloadType, ip, TheOnly(keys));
      }
    }
  }

  lemma ByIpLater(inf: Informers, ip: string, types: seq<string>, preferPodOwner: bool, r: LookupResult)
    requires Acyclic(ReplicaSets(inf)) && types != [] && ByIp(inf, ip, types[1..], preferPodOwner, r)
    requires forall k :: !OnlyOne(inf, types[0], ip, k)
    ensures ByIp(inf, ip, types, preferPodOwner, r)
  {
    var rest := types[1..];
    assert forall j :: 0 < j < |types| ==> types[j] == rest[j - 1];
    if i, k :| 0 <= i < |rest| && OnlyOne(inf, rest[i], ip, k) &&
               (forall j, k' :: 0 <= j < i ==> !OnlyOne(inf, rest[j], ip, k')) &&
               Gives(inf, inf[rest[i]][k], preferPodOwner, r) {
      assert types[i + 1] == rest[i];
      assert OnlyOne(inf, types[i + 1], ip, k) && Gives(inf, inf[types[i + 1]][k], preferPodOwner, r);
    }
  }

  lemma {:induction false} ByIpFinds(inf: Informers, ip: string, types: seq<string>, preferPodOwner: bool)
    requires Acyclic(ReplicaSets(inf)) && Watched(inf, types)
    ensures ByIp(inf, ip, types, preferPodOwner, LookupByIp(inf, ip, types, preferPodOwner))
  {
    if types != [] {
      OnlyOneIff(inf, types[0], ip);
      if Searchable(types[0]) && |MatchingIp(inf, ip, types[0])| == 1 {
        var k := TheOnly(MatchingIp(inf, ip, types[0]));
        ExtractGives(inf, inf[types[0]][k], preferPodOwner);
        assert OnlyOne(inf, types[0], ip, k);
      } else {
        ByIpFinds(inf, ip, types[1..], preferPodOwner);
        ByIpLater(inf, ip, types, preferPodOwner, LookupByIp(inf, ip, types, preferPodOwner));
      }
    }
  }

  // ----- Lookup by OTel service name -----

  ghost predicate Carries(m: map<string, string>, key: string, value: string) {
    if key in m then m[key] == value else value == ""
  }

  /** The pod is labelled with the service name, and the namespace asked for,
      if any, is on the label for it or in the attribute. */
  ghost predicate Labelled(w: Workload, name: string, namespace: string, namespaceFromAttr: string) {
    && w.goType.PodObject? && Carries(w.labels, "app.kubernetes.io/name", name)
    && (namespace == "" || Carries(w.labels, "app.kubernetes.io/part-of", namespace) || namespaceFromAttr == namespace)
  }

  /** The same with annotations. */
  ghost predicate Annotated(w: Workload, name: string, namespace: string, namespaceFromAttr: string) {
    && w.goType.PodObject? && Carries(w.annotations, "resource.opentelemetry.io/service.name", name)
    && (|| namespace == "" || namespaceFromAttr == namespace
        || Carries(w.annotations, "resource.opentelemetry.io/service.namespace", namespace))
  }

  lemma NotedIff(pods: Store, p: Hostname.Parsed, namespaceFromAttr: string, k: string)
    requires k in pods
    ensures k in NotedPods(pods, LabelNote, p, namespaceFromAttr) <==>
            Labelled(pods[k], p.name, p.namespace, namespaceFromAttr)
    ensures k in NotedPods(pods, AnnotationNote, p, namespaceFromAttr) <==>
            Annotated(pods[k], p.name, p.namespace, namespaceFromAttr)
  {
  }

  /** The name and the namespace that a host gives, of whatever form. */
  ghost predicate Reads(host: string, name: string, namespace: string) {
    || Untyped(host, name, namespace)
    || ('.' !in name && '.' !in namespace &&
        (Spells(host, name, namespace, "svc") || Spells(host, name, namespace, "pod")))
  }

  lemma ReadsParsed(host: string, name: string, namespace: string)
    requires Reads(host, name, namespace)
    ensures Hostname.Parse(host).name == name && Hostname.Parse(host).namespace == namespace
  {
    if Untyped(host, name, namespace) {
      UntypedParses(host, name, namespace);
    } else if Spells(host, name, namespace, "svc") {
      SpelledParses(host, Hostname.Parsed(name, namespace, "svc"));
    } else {
      SpelledParses(host, Hostname.Parsed(name, namespace, "pod"));
    }
  }

  /** A service name, read like a host, answers with what the labelled pods
      lead to, or else with what the annotated pods lead to; without pods among
      the informers and the expected types it has no answer. */
  lemma OtelAnswers(
      inf: Informers, service: string, name: string, namespace: string, namespaceFromAttr: string, types: seq<string>,
      preferPodOwner: bool, labelled: set<string>, annotated: set<string>)
    requires Acyclic(ReplicaSets(inf)) && Reads(service, name, namespace)
    requires var pods := if "pods" in inf && "pods" in types && name != "" then inf["pods"] else map[];
      && (forall k :: k in labelled <==> k in pods && Labelled(pods[k], name, namespace, namespaceFromAttr))
      && (forall k :: k in annotated <==> k in pods && Annotated(pods[k], name, namespace, namespaceFromAttr))
    ensures var r := LookupByOtelService(inf, service, namespaceFromAttr, types, preferPodOwner);
      if "pods" !in inf || "pods" !in types || name == "" then r == NO_ANSWER
      else
        && (r != NO_ANSWER ==>
              || LeadTo(inf, inf["pods"], labelled, preferPodOwner, r)
              || (LeadTo(inf, inf["pods"], annotated, preferPodOwner, r) &&
                  forall x :: !LeadTo(inf, inf["pods"], labelled, preferPodOwner, x)))
        && (r == NO_ANSWER ==> forall x ::
              && !LeadTo(inf, inf["pods"], labelled, preferPodOwner, x)
              && !LeadTo(inf, inf["pods"], annotated, preferPodOwner, x))
  {
    ReadsParsed(service, name, namespace);
    if "pods" in inf && "pods" in types && name != "" {
      var pods, p := inf["pods"], Hostname.Parse(service);
      forall k | k in pods
        ensures k in labelled <==> k in NotedPods(pods, LabelNote, p, namespaceFromAttr)
        ensures k in annotated <==> k in NotedPods(pods, AnnotationNote, p, namespaceFromAttr)
      {
        NotedIff(pods, p, namespaceFromAttr, k);
      }
      assert labelled == NotedPods(pods, LabelNote, p, namespaceFromAttr);
      assert annotated == NotedPods(pods, AnnotationNote, p, namespaceFromAttr);
      forall x
        ensures LeadTo(inf, pods, labelled, preferPodOwner, x) <==>
                x != EMPTY && LookupByNote(inf, pods, LabelNote, p, namespaceFromAttr, preferPodOwner) == x
        ensures LeadTo(inf, pods, annotated, preferPodOwner, x) <==>
                x != EMPTY && LookupByNote(inf, pods, AnnotationNote, p, namespaceFromAttr, preferPodOwner) == x
      {
        NoteLeads(inf, pods, LabelNote, p, namespaceFromAttr, preferPodOwner, x);
        NoteLeads(inf, pods, AnnotationNote, p, namespaceFromAttr, preferPodOwner, x);
      }
    }
  }

  // ----- Addresses -----

  /** The host of an address: an IP address is looked up as one; a name without
      a namespace, where one is required and the attribute has none, is not
      looked up; any other name is a host name first and a service name second. */
  lemma AddressAnswers(
      inf: Informers, host: string, namespaceRequired: bool, namespaceFromAttr: string, types: seq<string>,
      preferPodOwner: bool, name: string, namespace: string)
    requires Acyclic(ReplicaSets(inf)) && Watched(inf, types) && Reads(host, name, namespace)
    ensures ByIp(inf, host, types, preferPodOwner,
                 LookupByAddress(inf, host, true, namespaceRequired, namespaceFromAttr, types, preferPodOwner))
    ensures var byHost := LookupByHostname(inf, host, namespaceFromAttr, types, preferPodOwner);
      LookupByAddress(inf, host, false, namespaceRequired, namespaceFromAttr, types, preferPodOwner) ==
      if namespaceRequired && namespaceFromAttr == "" && namespace == "" then NO_ANSWER
      else if byHost != NO_ANSWER then byHost
      else LookupByOtelService(inf, host, namespaceFromAttr, types, preferPodOwner)
  {
    ByIpFinds(inf, host, types, preferPodOwner);
    ReadsParsed(host, name, namespace);
  }
}
