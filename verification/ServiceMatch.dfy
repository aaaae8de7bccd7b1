/** Choosing the service that stands for a discovered pod. */
module ServiceMatch {
  import opened Outcomes

  datatype Target = Number(value: int) | Named(name: string)

  datatype ServicePort = ServicePort(port: int, target: Target)

  datatype Service = Service(name: string, selector: map<string, string>, ports: seq<ServicePort>)

  datatype ContainerPort = ContainerPort(name: string, port: int)

  datatype Pod = Pod(labels: map<string, string>, containerPorts: seq<ContainerPort>, ports: seq<int>)

  /** A service's name with those of its ports that lead to the pod. */
  datatype Choice = Choice(name: string, ports: seq<int>)

  // ----- What makes a service match -----

  predicate SelectorMatches(selector: map<string, string>, labels: map<string, string>) {
    forall k :: k in selector ==> (if k in labels then labels[k] else "") == selector[k]
  }

  /** The last container port with a name counts. */
  function NamedPort(ports: seq<ContainerPort>, name: string): int {
    if ports == [] then 0
    else
      var last := ports[|ports| - 1];
      if last.name != "" && last.name == name then last.port else NamedPort(ports[..|ports| - 1], name)
  }

  function TargetPort(pod: Pod, sp: ServicePort): int {
    var target := if sp.target.Number? then sp.target.value else NamedPort(pod.containerPorts, sp.target.name);
    if target == 0 then sp.port else target
  }

  function MatchingPorts(pod: Pod, ports: seq<ServicePort>): seq<int> {
    if ports == [] then []
    else
      var last := ports[|ports| - 1];
      MatchingPorts(pod, ports[..|ports| - 1]) + if TargetPort(pod, last) in pod.ports then [last.port] else []
  }

  predicate Selects(pod: Pod, svc: Service) {
    svc.selector != map[] && SelectorMatches(svc.selector, pod.labels)
  }

  function PortsOf(pod: Pod, svc: Service): seq<int> {
    MatchingPorts(pod, svc.ports)
  }

  predicate Exact(pod: Pod, svc: Service) {
    Selects(pod, svc) && |PortsOf(pod, svc)| == |pod.ports|
  }

  predicate Candidate(pod: Pod, svc: Service) {
    Selects(pod, svc) && |PortsOf(pod, svc)| != 0
  }

  function ChoiceOf(pod: Pod, svc: Service): Choice {
    Choice(svc.name, PortsOf(pod, svc))
  }

  // ----- The same told from the manifests -----

  /** The last container port of the name, which is not empty. */
  ghost predicate LastNamed(ports: seq<ContainerPort>, name: string, i: nat) {
    i < |ports| && name != "" && ports[i].name == name && forall j :: i < j < |ports| ==> ports[j].name != name
  }

  /** A service port leads to a port of the pod: to its target number, or to
      the container port its target names; for want of either, or if that is
      zero, to the port of the same number. */
  ghost predicate LeadsTo(pod: Pod, sp: ServicePort, port: int) {
    match sp.target
    case Number(n) => port == if n != 0 then n else sp.port
    case Named(name) =>
      || (exists i: nat :: LastNamed(pod.containerPorts, name, i) && pod.containerPorts[i].port != 0 &&
                           port == pod.containerPorts[i].port)
      || (port == sp.port && forall i: nat :: LastNamed(pod.containerPorts, name, i) ==>
            pod.containerPorts[i].port == 0)
  }

  lemma {:induction false} NamedPortIsLast(ports: seq<ContainerPort>, name: string)
    ensures NamedPort(ports, name) != 0 ==> exists i: nat ::
              LastNamed(ports, name, i) && ports[i].port == NamedPort(ports, name)
    ensures forall i: nat :: LastNamed(ports, name, i) ==> ports[i].port == NamedPort(ports, name)
  {
    if ports != [] {
      var n := |ports| - 1;
      NamedPortIsLast(ports[..n], name);
      if name != "" && ports[n].name == name {
        assert LastNamed(ports, name, n);
      } else {
        assert forall i: nat :: LastNamed(ports[..n], name, i) <==> LastNamed(ports, name, i);
      }
    }
  }

  lemma TargetPortIff(pod: Pod, sp: ServicePort, port: int)
    ensures LeadsTo(pod, sp, port) <==> port == TargetPort(pod, sp)
  {
    if sp.target.Named? {
      NamedPortIsLast(pod.containerPorts, sp.target.name);
    }
  }

  ghost predicate Reaches(pod: Pod, sp: ServicePort) {
    exists port :: port in pod.ports && LeadsTo(pod, sp, port)
  }

  /** `found` are the numbers of the service ports, at ascending places, that
      lead to a port of the pod. */
  ghost predicate PortsAt(pod: Pod, ports: seq<ServicePort>, found: seq<int>, from: seq<nat>) {
    && |from| == |found|
    && (forall i, j :: 0 <= i < j < |from| ==> from[i] < from[j])
    && (forall i :: 0 <= i < |from| ==>
          from[i] < |ports| && Reaches(pod, ports[from[i]]) && found[i] == ports[from[i]].port)
    && (forall k :: 0 <= k < |ports| && Reaches(pod, ports[k]) ==> k in from)
  }

  lemma PortsAtOneMore(pod: Pod, ports: seq<ServicePort>, last: ServicePort, found: seq<int>, from: seq<nat>)
    requires PortsAt(pod, ports, found, from)
    ensures if Reaches(pod, last) then PortsAt(pod, ports + [last], found + [last.port], from + [|ports|])
            else PortsAt(pod, ports + [last], found, from)
  {
    if Reaches(pod, last) {
      var more := from + [|ports|];
      forall k | 0 <= k < |ports + [last]| && Reaches(pod, (ports + [last])[k]) ensures k in more {
        if k < |ports| {
          assert k in from;
        } else {
          assert more[|from|] == k;
        }
      }
    }
  }

  lemma {:induction false} PortsExact(pod: Pod, ports: seq<ServicePort>) returns (from: seq<nat>)
    ensures PortsAt(pod, ports, MatchingPorts(pod, ports), from)
  {
    from := [];
    if ports != [] {
      var front, last := ports[..|ports| - 1], ports[|ports| - 1];
      from := PortsExact(pod, front);
      PortsAtOneMore(pod, front, last, MatchingPorts(pod, front), from);
      ReachesIff(pod, last);
      assert ports == front + [last];
      if Reaches(pod, last) {
        from := from + [|front|];
      } else {
        assert MatchingPorts(pod, ports) == MatchingPorts(pod, front);
      }
    }
  }

  lemma ReachesIff(pod: Pod, sp: ServicePort)
    ensures Reaches(pod, sp) <==> TargetPort(pod, sp) in pod.ports
  {
    forall port ensures LeadsTo(pod, sp, port) <==> port == TargetPort(pod, sp) {
      TargetPortIff(pod, sp, port);
    }
  }

  /** The selector is not empty and the pod has each label in it. */
  ghost predicate Picks(svc: Service, pod: Pod) {
    && (exists k :: k in svc.selector)
    && forall k :: k in svc.selector ==>
         if k in pod.labels then pod.labels[k] == svc.selector[k] else svc.selector[k] == ""
  }

  /** A choice made of one service. */
  ghost predicate IsMatch(pod: Pod, svc: Service, choice: Choice) {
    Picks(svc, pod) && choice.name == svc.name && exists from :: PortsAt(pod, svc.ports, choice.ports, from)
  }

  lemma PicksIff(svc: Service, pod: Pod)
    ensures Picks(svc, pod) <==> Selects(pod, svc)
  {
    assert svc.selector != map[] <==> exists k :: k in svc.selector;
  }

  lemma NoPortReaches(pod: Pod, ports: seq<ServicePort>, from: seq<nat>)
    requires PortsAt(pod, ports, [], from)
    ensures forall sp :: sp in ports ==> !Reaches(pod, sp)
  {
    forall k | 0 <= k < |ports| ensures !Reaches(pod, ports[k]) {
      assert k !in from;
    }
  }

  /** A service picks the pod and none of its ports reaches it. */
  ghost predicate PicksInVain(svc: Service, pod: Pod) {
    Picks(svc, pod) && forall sp :: sp in svc.ports ==> !Reaches(pod, sp)
  }

  /** A choice is the match of one of the services; there is none only where
      every service that picks the pod does so in vain, and the pod has ports. */
  ghost predicate IsTold(pod: Pod, services: seq<Service>, choice: Option<Choice>) {
    match choice
    case Some(c) => exists svc :: svc in services && IsMatch(pod, svc, c)
    case None => forall svc :: svc in services && Picks(svc, pod) ==> pod.ports != [] && PicksInVain(svc, pod)
  }

  /** A service picks the pod and reaches it with so many ports. */
  ghost predicate PicksWith(pod: Pod, svc: Service, n: nat) {
    Picks(svc, pod) && |PortsOf(pod, svc)| == n
  }

  lemma ChoiceIsMatch(pod: Pod, svc: Service)
    requires Selects(pod, svc)
    ensures IsMatch(pod, svc, ChoiceOf(pod, svc))
  {
    var from := PortsExact(pod, svc.ports);
    PicksIff(svc, pod);
  }

  lemma NoCandidate(pod: Pod, svc: Service)
    requires !Candidate(pod, svc) && !Exact(pod, svc) && Picks(svc, pod)
    ensures pod.ports != [] && PicksInVain(svc, pod)
  {
    PicksIff(svc, pod);
    var from := PortsExact(pod, svc.ports);
    NoPortReaches(pod, svc.ports, from);
  }

  // ----- The order among candidates -----

  /** Character-wise comparison of strings. */
  predicate Less(a: string, b: string) {
    b != "" && (a == "" || a[0] < b[0] || (a[0] == b[0] && Less(a[1..], b[1..])))
  }

  lemma {:induction false} LessTrichotomy(a: string, b: string)
    ensures Less(a, b) || Less(b, a) || a == b
    ensures !(Less(a, b) && Less(b, a)) && !Less(a, a)
  {
    if a != "" {
      if b != "" {
        LessTrichotomy(a[1..], b[1..]);
        assert a == [a[0]] + a[1..] && b == [b[0]] + b[1..];
      } else {
        LessTrichotomy(a[1..], b);
      }
    }
  }

  lemma {:induction false} LessTransitive(a: string, b: string, c: string)
    requires Less(a, b) && Less(b, c)
    ensures Less(a, c)
  {
    if a != "" && a[0] == b[0] == c[0] {
      LessTransitive(a[1..], b[1..], c[1..]);
    }
  }

  /** Where two strings first differ, the smaller has the smaller character or ends. */
  ghost predicate DifferAt(a: string, b: string, i: nat) {
    i <= |a| && i < |b| && a[..i] == b[..i] && (i == |a| || a[i] < b[i])
  }

  lemma {:induction false} LessIff(a: string, b: string)
    ensures Less(a, b) <==> exists i: nat :: DifferAt(a, b, i)
  {
    if a == "" || b == "" || a[0] != b[0] {
      assert Less(a, b) ==> DifferAt(a, b, 0);
      assert forall i: nat :: DifferAt(a, b, i) && i > 0 ==> a[..i][0] == b[..i][0];
    } else {
      LessIff(a[1..], b[1..]);
      forall i: nat ensures DifferAt(a, b, i + 1) <==> DifferAt(a[1..], b[1..], i) {
        if i < |a| && i + 1 < |b| {
          assert a[..i + 1] == [a[0]] + a[1..][..i] && b[..i + 1] == [b[0]] + b[1..][..i];
        }
      }
      assert !DifferAt(a, b, 0);
      if i: nat :| DifferAt(a, b, i) {
        assert DifferAt(a[1..], b[1..], i - 1);
      }
    }
  }

  /** Fewer matching ports first, then by name. */
  predicate Before(pod: Pod, a: Service, b: Service) {
    |PortsOf(pod, a)| < |PortsOf(pod, b)| || (|PortsOf(pod, a)| == |PortsOf(pod, b)| && Less(a.name, b.name))
  }

  lemma BeforeTransitive(pod: Pod, a: Service, b: Service, c: Service)
    requires Before(pod, a, b) && Before(pod, b, c)
    ensures Before(pod, a, c)
  {
    if |PortsOf(pod, a)| == |PortsOf(pod, c)| {
      LessTransitive(a.name, b.name, c.name);
    }
  }

  // ----- The choice -----

  ghost predicate FirstExact(pod: Pod, services: seq<Service>, i: nat) {
    i < |services| && Exact(pod, services[i]) && forall j :: 0 <= j < i ==> !Exact(pod, services[j])
  }

  ghost predicate LeastCandidate(pod: Pod, services: seq<Service>, i: nat) {
    && i < |services| && Candidate(pod, services[i])
    && forall j :: 0 <= j < |services| && Candidate(pod, services[j]) ==> !Before(pod, services[j], services[i])
  }

  ghost predicate NoExact(pod: Pod, services: seq<Service>) {
    forall i :: 0 <= i < |services| ==> !Exact(pod, services[i])
  }

  /** The first exact match, else the least candidate, else nothing. */
  ghost predicate IsChoice(pod: Pod, services: seq<Service>, choice: Option<Choice>) {
    if !NoExact(pod, services) then
      exists i: nat :: FirstExact(pod, services, i) && choice == Some(ChoiceOf(pod, services[i]))
    else if forall i :: 0 <= i < |services| ==> !Candidate(pod, services[i]) then choice == None
    else exists i: nat :: LeastCandidate(pod, services, i) && choice == Some(ChoiceOf(pod, services[i]))
  }

  /** The second loop: keep the best of the candidates seen. */
  method BestOf(pod: Pod, candidates: seq<Service>) returns (best: Service)
    requires candidates != []
    ensures best in candidates
    ensures forall s :: s in candidates ==> !Before(pod, s, best)
  {
    best := candidates[0];
    NotBeforeItself(pod, best);
    for c := 1 to |candidates|
      invariant best in candidates
      invariant forall d :: 0 <= d < c ==> !Before(pod, candidates[d], best)
    {
      if Before(pod, candidates[c], best) {
        NothingBefore(pod, candidates[..c], best, candidates[c]);
        best := candidates[c];
      }
    }
  }

  lemma NotBeforeItself(pod: Pod, s: Service)
    ensures !Before(pod, s, s)
  {
    LessTrichotomy(s.name, s.name);
  }

  lemma NothingBefore(pod: Pod, seen: seq<Service>, best: Service, next: Service)
    requires forall d :: 0 <= d < |seen| ==> !Before(pod, seen[d], best)
    requires Before(pod, next, best)
    ensures forall d :: 0 <= d < |seen| ==> !Before(pod, seen[d], next)
    ensures !Before(pod, next, next)
  {
    NotBeforeItself(pod, next);
    forall d | 0 <= d < |seen| ensures !Before(pod, seen[d], next) {
      if Before(pod, seen[d], next) {
        BeforeTransitive(pod, seen[d], next, best);
      }
    }
  }

  /** The first service that picks the pod with as many ports as it has. */
  ghost predicate FirstFull(pod: Pod, services: seq<Service>, i: nat) {
    && i < |services| && PicksWith(pod, services[i], |pod.ports|)
    && forall j :: 0 <= j < i ==> !PicksWith(pod, services[j], |pod.ports|)
  }

  /** A service picks the pod with one port at least, and no other does so with
      fewer, or with as many and a smaller name. */
  ghost predicate NoneSmaller(pod: Pod, services: seq<Service>, i: nat) {
    && i < |services| && Picks(services[i], pod) && |PortsOf(pod, services[i])| > 0
    && forall j :: 0 <= j < |services| && Picks(services[j], pod) && |PortsOf(pod, services[j])| > 0 ==>
         var n, m := |PortsOf(pod, services[j])|, |PortsOf(pod, services[i])|;
         n > m || (n == m && forall d: nat :: !DifferAt(services[j].name, services[i].name, d))
  }

  /** The choice is the first full match, or without one a smallest. */
  ghost predicate IsChosen(pod: Pod, services: seq<Service>, choice: Choice, i: nat) {
    && i < |services| && choice == Choice(services[i].name, PortsOf(pod, services[i]))
    && (FirstFull(pod, services, i) || (NoneSmaller(pod, services, i) && forall j: nat :: !FirstFull(pod, services, j)))
  }

  lemma ExactTold(pod: Pod, services: seq<Service>, i: nat)
    ensures FirstFull(pod, services, i) <==> FirstExact(pod, services, i)
  {
    forall j | 0 <= j < |services| ensures PicksWith(pod, services[j], |pod.ports|) <==> Exact(pod, services[j]) {
      PicksIff(services[j], pod);
    }
  }

  lemma LeastTold(pod: Pod, services: seq<Service>, i: nat)
    requires LeastCandidate(pod, services, i)
    ensures NoneSmaller(pod, services, i)
  {
    PicksIff(services[i], pod);
    forall j | 0 <= j < |services| && Picks(services[j], pod) && |PortsOf(pod, services[j])| > 0
      ensures var n, m := |PortsOf(pod, services[j])|, |PortsOf(pod, services[i])|;
        n > m || (n == m && forall d: nat :: !DifferAt(services[j].name, services[i].name, d))
    {
      PicksIff(services[j], pod);
      assert !Before(pod, services[j], services[i]);
      LessIff(services[j].name, services[i].name);
    }
  }

  lemma FirstExactTold(pod: Pod, services: seq<Service>, i: nat)
    requires FirstExact(pod, services, i)
    ensures IsChosen(pod, services, ChoiceOf(pod, services[i]), i)
  {
    ExactTold(pod, services, i);
  }

  lemma LeastCandidateTold(pod: Pod, services: seq<Service>, i: nat)
    requires LeastCandidate(pod, services, i) && NoExact(pod, services)
    ensures IsChosen(pod, services, ChoiceOf(pod, services[i]), i)
  {
    forall j: nat ensures !FirstFull(pod, services, j) {
      ExactTold(pod, services, j);
    }
    LeastTold(pod, services, i);
  }

  lemma NothingToChoose(pod: Pod, services: seq<Service>)
    requires forall i :: 0 <= i < |services| ==> !Exact(pod, services[i]) && !Candidate(pod, services[i])
    ensures IsTold(pod, services, None)
  {
    forall svc | svc in services && Picks(svc, pod) ensures pod.ports != [] && PicksInVain(svc, pod) {
      NoCandidate(pod, svc);
    }
  }

  /** matchServiceForPod: an exact match at once, else the best candidate. */
  method MatchServiceForPod(pod: Pod, services: seq<Service>) returns (choice: Option<Choice>)
    ensures IsChoice(pod, services, choice)
    ensures IsTold(pod, services, choice)
    ensures choice.Some? ==> exists i: nat :: IsChosen(pod, services, choice.value, i)
  {
    var candidates: seq<Service> := [];
    for i := 0 to |services|
      invariant forall j :: 0 <= j < i ==> !Exact(pod, services[j])
      invariant forall s :: s in candidates <==> s in services[..i] && Candidate(pod, s)
    {
      if Exact(pod, services[i]) {
        assert FirstExact(pod, services, i);
        ChoiceIsMatch(pod, services[i]);
        FirstExactTold(pod, services, i);
        return Some(ChoiceOf(pod, services[i]));
      }
      assert services[..i + 1] == services[..i] + [services[i]];
      if Candidate(pod, services[i]) {
        candidates := candidates + [services[i]];
      }
    }
    assert services[..|services|] == services;
    if candidates == [] {
      NothingToChoose(pod, services);
      return None;
    }
    var best := BestOf(pod, candidates);
    ghost var i: nat :| i < |services| && services[i] == best;
    assert LeastCandidate(pod, services, i);
    ChoiceIsMatch(pod, best);
    LeastCandidateTold(pod, services, i);
    choice := Some(ChoiceOf(pod, best));
  }

  // ----- Not the best port match -----

  ghost predicate HasMostPorts(pod: Pod, services: seq<Service>, choice: Choice) {
    forall s :: s in services && Candidate(pod, s) ==> |PortsOf(pod, s)| <= |choice.ports|
  }

  ghost predicate EquallyMany(pod: Pod, services: seq<Service>) {
    forall s, t :: s in services && t in services && Candidate(pod, s) && Candidate(pod, t) ==>
      |PortsOf(pod, s)| == |PortsOf(pod, t)|
  }

  /** Without an exact match the choice has the fewest matching ports of all
      candidates, so it is a best port match exactly when all match equally many. */
  lemma BestMatchIffEquallyMany(pod: Pod, services: seq<Service>)
    ensures forall choice :: NoExact(pod, services) && IsChoice(pod, services, Some(choice)) ==>
              && (forall s :: s in services && Candidate(pod, s) ==> |choice.ports| <= |PortsOf(pod, s)|)
              && (HasMostPorts(pod, services, choice) <==> EquallyMany(pod, services))
  {
    forall choice | NoExact(pod, services) && IsChoice(pod, services, Some(choice))
      ensures forall s :: s in services && Candidate(pod, s) ==> |choice.ports| <= |PortsOf(pod, s)|
      ensures HasMostPorts(pod, services, choice) <==> EquallyMany(pod, services)
    {
      var i: nat :| LeastCandidate(pod, services, i) && choice == ChoiceOf(pod, services[i]);
      FewestPorts(pod, services, i);
    }
  }

  lemma FewestPorts(pod: Pod, services: seq<Service>, i: nat)
    requires LeastCandidate(pod, services, i)
    ensures forall s :: s in services && Candidate(pod, s) ==> |PortsOf(pod, services[i])| <= |PortsOf(pod, s)|
    ensures HasMostPorts(pod, services, ChoiceOf(pod, services[i])) <==> EquallyMany(pod, services)
  {
    forall s | s in services && Candidate(pod, s) ensures |PortsOf(pod, services[i])| <= |PortsOf(pod, s)| {
      assert !Before(pod, s, services[i]);
    }
    assert services[i] in services;
  }

  const DATABASE: map<string, string> := map["app" := "db"]
  const THREE_PORTS: Pod := Pod(DATABASE, [], [1, 2, 3])
  const NARROW: Service := Service("narrow", DATABASE, [ServicePort(1, Number(1))])
  const WIDE: Service := Service("wide", DATABASE, [ServicePort(1, Number(1)), ServicePort(2, Number(2))])

  lemma NarrowAndWidePorts()
    ensures PortsOf(THREE_PORTS, NARROW) == [1] && PortsOf(THREE_PORTS, WIDE) == [1, 2]
    ensures Selects(THREE_PORTS, NARROW) && Selects(THREE_PORTS, WIDE)
  {
    var one, two := ServicePort(1, Number(1)), ServicePort(2, Number(2));
    assert THREE_PORTS.ports[0] == TargetPort(THREE_PORTS, one) && THREE_PORTS.ports[1] == TargetPort(THREE_PORTS, two);
    assert [one][..0] == [] && [one, two][..1] == [one];
    assert MatchingPorts(THREE_PORTS, [one]) == [1];
    assert "app" in DATABASE;
  }

  /** With two candidates and no exact match the one before the other is chosen. */
  lemma FirstOfTwo(pod: Pod, a: Service, b: Service, choice: Option<Choice>)
    requires Candidate(pod, a) && Candidate(pod, b) && !Exact(pod, a) && !Exact(pod, b) && Before(pod, b, a)
    requires IsChoice(pod, [a, b], choice)
    ensures choice == Some(ChoiceOf(pod, b))
  {
    var services := [a, b];
    assert NoExact(pod, services);
    assert services[0] == a && services[1] == b;
    assert Candidate(pod, services[1]);
    var i: nat :| LeastCandidate(pod, services, i) && choice == Some(ChoiceOf(pod, services[i]));
    assert i != 0;
  }

  /** A pod with three ports, one service on the first two and one on the
      first alone: the choice falls on the service that reaches fewer ports. */
  lemma FewerPortsWin(choice: Option<Choice>)
    requires IsChoice(THREE_PORTS, [WIDE, NARROW], choice)
    ensures choice == Some(Choice("narrow", [1]))
    ensures !HasMostPorts(THREE_PORTS, [WIDE, NARROW], choice.value)
  {
    NarrowAndWidePorts();
    FirstOfTwo(THREE_PORTS, WIDE, NARROW, choice);
    assert WIDE in [WIDE, NARROW];
  }

  // ----- When the order of the list does not matter -----

  ghost predicate SameServices(a: seq<Service>, b: seq<Service>) {
    forall s :: s in a <==> s in b
  }

  ghost predicate UniquelyNamed(services: seq<Service>) {
    forall s, t :: s in services && t in services && s.name == t.name ==> s == t
  }

  /** At most one service matches exactly. */
  ghost predicate OneExact(pod: Pod, services: seq<Service>) {
    forall s, t :: s in services && t in services && Exact(pod, s) && Exact(pod, t) ==> s == t
  }

  /** With unique names and at most one exact match, any order gives the same choice. */
  lemma OrderDoesNotMatter(pod: Pod, a: seq<Service>, b: seq<Service>, x: Option<Choice>, y: Option<Choice>)
    requires SameServices(a, b) && UniquelyNamed(a) && OneExact(pod, a)
    requires IsChoice(pod, a, x) && IsChoice(pod, b, y)
    ensures x == y
  {
    assert NoExact(pod, a) <==> NoExact(pod, b) by {
      assert forall i :: 0 <= i < |a| ==> a[i] in b;
      assert forall i :: 0 <= i < |b| ==> b[i] in a;
    }
    if !NoExact(pod, a) {
      var i: nat :| FirstExact(pod, a, i) && x == Some(ChoiceOf(pod, a[i]));
      var j: nat :| FirstExact(pod, b, j) && y == Some(ChoiceOf(pod, b[j]));
      assert a[i] in a && b[j] in a;
    } else if forall i :: 0 <= i < |a| ==> !Candidate(pod, a[i]) {
      assert forall i :: 0 <= i < |b| ==> b[i] in a;
    } else {
      var k :| 0 <= k < |a| && Candidate(pod, a[k]);
      assert a[k] in b;
      var i: nat :| LeastCandidate(pod, a, i) && x == Some(ChoiceOf(pod, a[i]));
      var j: nat :| LeastCandidate(pod, b, j) && y == Some(ChoiceOf(pod, b[j]));
      assert a[i] in b && b[j] in a;
      LessTrichotomy(a[i].name, b[j].name);
    }
  }

  ghost predicate OrderIrrelevant(pod: Pod, a: seq<Service>) {
    forall b, x, y :: multiset(a) == multiset(b) && IsChoice(pod, a, x) && IsChoice(pod, b, y) ==> x == y
  }

  lemma {:induction false} FirstExactExists(pod: Pod, a: seq<Service>, n: nat) returns (i: nat)
    requires n < |a| && Exact(pod, a[n])
    ensures FirstExact(pod, a, i)
  {
    if j :| 0 <= j < n && Exact(pod, a[j]) {
      i := FirstExactExists(pod, a, j);
    } else {
      i := n;
    }
  }

  /** An exact match moved to the front is the choice. */
  lemma MovedToFront(pod: Pod, a: seq<Service>, n: nat) returns (b: seq<Service>)
    requires n < |a| && Exact(pod, a[n])
    ensures multiset(a) == multiset(b) && IsChoice(pod, b, Some(ChoiceOf(pod, a[n])))
  {
    b := [a[n]] + a[..n] + a[n + 1..];
    assert a == a[..n] + [a[n]] + a[n + 1..];
    assert FirstExact(pod, b, 0);
  }

  lemma TwoExactShow(pod: Pod, a: seq<Service>, n: nat, m: nat)
    requires n < |a| && m < |a| && Exact(pod, a[n]) && Exact(pod, a[m]) && a[n].name != a[m].name
    ensures !OrderIrrelevant(pod, a)
  {
    var first := FirstExactExists(pod, a, n);
    var x := Some(ChoiceOf(pod, a[first]));
    assert IsChoice(pod, a, x);
    if a[first].name == a[n].name {
      var b := MovedToFront(pod, a, m);
    } else {
      var b := MovedToFront(pod, a, n);
    }
  }

  lemma Reordered(a: seq<Service>, b: seq<Service>)
    requires multiset(a) == multiset(b)
    ensures SameServices(a, b)
  {
    forall s ensures s in a <==> s in b {
      assert s in a <==> s in multiset(a);
      assert s in b <==> s in multiset(b);
    }
  }

  lemma OneExactIsEnough(pod: Pod, a: seq<Service>)
    requires UniquelyNamed(a) && OneExact(pod, a)
    ensures OrderIrrelevant(pod, a)
  {
    forall b, x, y | multiset(a) == multiset(b) && IsChoice(pod, a, x) && IsChoice(pod, b, y) ensures x == y {
      Reordered(a, b);
      OrderDoesNotMatter(pod, a, b, x, y);
    }
  }

  /** For uniquely named services the choice is independent of their order
      exactly when at most one of them matches exactly. */
  lemma OrderIrrelevantIff(pod: Pod, a: seq<Service>)
    requires UniquelyNamed(a)
    ensures OrderIrrelevant(pod, a) <==> OneExact(pod, a)
  {
    if OneExact(pod, a) {
      OneExactIsEnough(pod, a);
    } else {
      var s, t :| s in a && t in a && Exact(pod, s) && Exact(pod, t) && s != t;
      var n: nat :| n < |a| && a[n] == s;
      var m: nat :| m < |a| && a[m] == t;
      TwoExactShow(pod, a, n, m);
    }
  }
}
