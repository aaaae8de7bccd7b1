/**
 * The event generation processor's pipeline: one goroutine parses manifests
 * out of log records, another turns them into records, and the caller waits
 * for a parse error or for both to finish. All channels are unbuffered.
 */
module ManifestPipeline {
  import opened Outcomes
  import opened Int64
  import opened Sequences

  const VULNERABILITY_API := "aquasecurity.github.io/v1alpha1"

  /** Nanoseconds since 1970 in 64 bits. */
  type Timestamp = t: int | 0 <= t < SIZE

  datatype LogRecord = LogRecord(kind: Option<string>, body: string, observed: Timestamp, written: Timestamp)

  /** A resource log as received, or one of the two kinds the processor appends. */
  datatype ResourceLog<R> =
    | Received(clusterUid: Option<string>, scopes: seq<seq<LogRecord>>)
    | EntityStateEvents(records: seq<R>)
    | ServiceMappings(records: seq<R>)

  datatype Manifest<C> = Pod(content: C) | Mapping(content: C) | VulnerabilityReport(content: C)

  /** What travels on the manifest channel. */
  datatype Item<C> = Item(manifest: Manifest<C>, timestamp: Timestamp, clusterUid: string)

  datatype ParseError = ParseError(kind: string, body: string)

  /** What one log record amounts to. */
  datatype Finding<C> = Nothing | Found(item: Item<C>) | Broken(error: ParseError)

  /** Decoding of each manifest kind (None when malformed), the records made
      from a decoded one, and the clock as each log record finds it. */
  datatype Library<!C, R> = Library(
    pod: string -> Option<C>,
    endpoints: string -> Option<C>,
    endpointSlice: string -> Option<C>,
    report: string -> Option<(string, C)>,
    podRecords: (C, Timestamp, string) -> seq<R>,
    mappingRecords: (C, Timestamp, string) -> seq<R>,
    reportRecords: (C, Timestamp, string) -> seq<R>,
    clock: LogRecord -> Timestamp)

  // ----- The time of a record -----

  const UNIX_EPOCH: int := 62_135_596_800 * 1_000_000_000

  /** Nanoseconds since the first of January of year 1; the time is read from
      the timestamp as a signed number. */
  function AsTime(t: Timestamp): int {
    Wrap64(t) + UNIX_EPOCH
  }

  /** getTimestamp. */
  function GetTimestamp(lr: LogRecord, now: Timestamp): Timestamp {
    if AsTime(lr.observed) != 0 then lr.observed
    else if AsTime(lr.written) != 0 then lr.written
    else now
  }

  /** What is documented: the first of them that is set. */
  function TimestampAsDocumented(lr: LogRecord, now: Timestamp): Timestamp {
    if lr.observed != 0 then lr.observed else if lr.written != 0 then lr.written else now
  }

  /** No 64-bit timestamp reaches back to year 1, so the observed one is always
      taken; that is as documented exactly when it is set, or when nothing
      else would be. */
  lemma ObservedAlwaysTaken(lr: LogRecord, now: Timestamp)
    ensures GetTimestamp(lr, now) == lr.observed
    ensures GetTimestamp(lr, now) == TimestampAsDocumented(lr, now) <==>
            lr.observed != 0 || (lr.written == 0 && now == 0)
  {
  }

  /** A record written a second after 1970 but not observed gets time zero. */
  lemma WrittenTimeIgnored(now: Timestamp)
    ensures var lr := LogRecord(None, "", 0, 1_000_000_000);
      GetTimestamp(lr, now) == 0 && TimestampAsDocumented(lr, now) == 1_000_000_000
  {
  }

  // ----- Sequential meaning -----

  function ExtractManifest<C, R>(lib: Library<C, R>, lr: LogRecord, uid: string): Finding<C> {
    if lr.kind.None? then Nothing
    else
      var kind, t := lr.kind.value, GetTimestamp(lr, lib.clock(lr));
      if kind == "Pod" then
        match lib.pod(lr.body)
        case None => Broken(ParseError(kind, lr.body))
        case Some(c) => Found(Item(Pod(c), t, uid))
      else if kind == "Endpoints" then
        match lib.endpoints(lr.body)
        case None => Broken(ParseError(kind, lr.body))
        case Some(c) => Found(Item(Mapping(c), t, uid))
      else if kind == "EndpointSlice" then
        match lib.endpointSlice(lr.body)
        case None => Broken(ParseError(kind, lr.body))
        case Some(c) => Found(Item(Mapping(c), t, uid))
      else if kind == "VulnerabilityReport" then
        match lib.report(lr.body)
        case None => Broken(ParseError(kind, lr.body))
        case Some(v) =>
          if v.0 == VULNERABILITY_API then Found(Item(VulnerabilityReport(v.1), t, uid)) else Nothing
      else Nothing
  }

  function ScopeFindings<C, R>(lib: Library<C, R>, records: seq<LogRecord>, uid: string): seq<Finding<C>> {
    if records == [] then [] else [ExtractManifest(lib, records[0], uid)] + ScopeFindings(lib, records[1..], uid)
  }

  function ResourceFindings<C, R>(lib: Library<C, R>, scopes: seq<seq<LogRecord>>, uid: string): seq<Finding<C>> {
    if scopes == [] then [] else ScopeFindings(lib, scopes[0], uid) + ResourceFindings(lib, scopes[1..], uid)
  }

  /** What the generator meets in one resource log. */
  function LogFindings<C, R>(lib: Library<C, R>, log: ResourceLog<R>): seq<Finding<C>> {
    match log
    case Received(None, scopes) => ResourceFindings(lib, scopes, "")
    case Received(Some(uid), scopes) => ResourceFindings(lib, scopes, uid)
    case _ => []
  }

  /** What the generator meets, in the order of resource, scope and record. */
  function Findings<C, R>(lib: Library<C, R>, logs: seq<ResourceLog<R>>): seq<Finding<C>> {
    if logs == [] then [] else LogFindings(lib, logs[0]) + Findings(lib, logs[1..])
  }

  function EntityRecords<C, R>(lib: Library<C, R>, f: Finding<C>): seq<R> {
    match f
    case Found(Item(Pod(c), t, uid)) => lib.podRecords(c, t, uid)
    case Found(Item(VulnerabilityReport(c), t, uid)) => lib.reportRecords(c, t, uid)
    case _ => []
  }

  function MappingRecords<C, R>(lib: Library<C, R>, f: Finding<C>): seq<R> {
    match f
    case Found(Item(Mapping(c), t, uid)) => lib.mappingRecords(c, t, uid)
    case _ => []
  }

  /** A sequential pass over the findings. */
  function AllEntityRecords<C, R>(lib: Library<C, R>, findings: seq<Finding<C>>): seq<R> {
    if findings == [] then []
    else AllEntityRecords(lib, findings[..|findings| - 1]) + EntityRecords(lib, findings[|findings| - 1])
  }

  function AllMappingRecords<C, R>(lib: Library<C, R>, findings: seq<Finding<C>>): seq<R> {
    if findings == [] then []
    else AllMappingRecords(lib, findings[..|findings| - 1]) + MappingRecords(lib, findings[|findings| - 1])
  }

  function Appended<R>(entities: seq<R>, mappings: seq<R>): seq<ResourceLog<R>> {
    (if entities == [] then [] else [EntityStateEvents(entities)]) +
    (if mappings == [] then [] else [ServiceMappings(mappings)])
  }

  /** How far the generator gets: the first malformed record, or the end. */
  function Stop<C>(findings: seq<Finding<C>>): nat {
    if findings == [] || findings[0].Broken? then 0 else 1 + Stop(findings[1..])
  }

  lemma {:induction false} StopFacts<C>(findings: seq<Finding<C>>)
    ensures Stop(findings) <= |findings|
    ensures forall i :: 0 <= i < Stop(findings) ==> !findings[i].Broken?
    ensures Stop(findings) < |findings| ==> findings[Stop(findings)].Broken?
  {
    if findings != [] && !findings[0].Broken? {
      StopFacts(findings[1..]);
      assert forall i :: 0 < i < |findings| ==> findings[i] == findings[1..][i - 1];
    }
  }

  // ----- What the records add, told from their kinds -----

  /** What one record adds to the entity state events: pods and vulnerability
      reports of the one known API version do, at the time they were observed. */
  function EntitiesFrom<C, R>(lib: Library<C, R>, lr: LogRecord, uid: string): seq<R> {
    if lr.kind == Some("Pod") && lib.pod(lr.body).Some? then lib.podRecords(lib.pod(lr.body).value, lr.observed, uid)
    else if lr.kind == Some("VulnerabilityReport") && lib.report(lr.body).Some? &&
            lib.report(lr.body).value.0 == "aquasecurity.github.io/v1alpha1"
    then lib.reportRecords(lib.report(lr.body).value.1, lr.observed, uid)
    else []
  }

  /** What it adds to the service mappings: Endpoints and EndpointSlices do. */
  function MappingsFrom<C, R>(lib: Library<C, R>, lr: LogRecord, uid: string): seq<R> {
    if lr.kind == Some("Endpoints") && lib.endpoints(lr.body).Some?
    then lib.mappingRecords(lib.endpoints(lr.body).value, lr.observed, uid)
    else if lr.kind == Some("EndpointSlice") && lib.endpointSlice(lr.body).Some?
    then lib.mappingRecords(lib.endpointSlice(lr.body).value, lr.observed, uid)
    else []
  }

  /** The four kinds that are decoded can be malformed, no other can. */
  predicate Malformed<C, R>(lib: Library<C, R>, lr: LogRecord) {
    || (lr.kind == Some("Pod") && lib.pod(lr.body).None?)
    || (lr.kind == Some("Endpoints") && lib.endpoints(lr.body).None?)
    || (lr.kind == Some("EndpointSlice") && lib.endpointSlice(lr.body).None?)
    || (lr.kind == Some("VulnerabilityReport") && lib.report(lr.body).None?)
  }

  function ErrorsFrom<C, R>(lib: Library<C, R>, lr: LogRecord): seq<ParseError> {
    if Malformed(lib, lr) then [ParseError(lr.kind.value, lr.body)] else []
  }

  function FindingErrors<C>(f: Finding<C>): seq<ParseError> {
    if f.Broken? then [f.error] else []
  }

  /** One record, whatever its kind: to which of the two it adds what, or which
      error it is. */
  lemma RecordAdds<C, R>(lib: Library<C, R>, lr: LogRecord, uid: string)
    ensures EntityRecords(lib, ExtractManifest(lib, lr, uid)) == EntitiesFrom(lib, lr, uid)
    ensures MappingRecords(lib, ExtractManifest(lib, lr, uid)) == MappingsFrom(lib, lr, uid)
    ensures FindingErrors(ExtractManifest(lib, lr, uid)) == ErrorsFrom(lib, lr)
  {
    ObservedAlwaysTaken(lr, lib.clock(lr));
  }

  type Part<T> = (LogRecord, string) -> seq<T>

  function EntityPart<C, R>(lib: Library<C, R>): Part<R> {
    (lr, uid) => EntitiesFrom(lib, lr, uid)
  }

  function MappingPart<C, R>(lib: Library<C, R>): Part<R> {
    (lr, uid) => MappingsFrom(lib, lr, uid)
  }

  function ErrorPart<C, R>(lib: Library<C, R>): Part<ParseError> {
    (lr, uid) => ErrorsFrom(lib, lr)
  }

  /** The parts of all records of a scope, of a resource log with its cluster
      UID (empty if it has none), and of all resource logs, in order. */
  function OfScope<T>(part: Part<T>, records: seq<LogRecord>, uid: string): seq<T> {
    Concat(seq(|records|, k requires 0 <= k < |records| => part(records[k], uid)))
  }

  function OfResource<T>(part: Part<T>, scopes: seq<seq<LogRecord>>, uid: string): seq<T> {
    Concat(seq(|scopes|, j requires 0 <= j < |scopes| => OfScope(part, scopes[j], uid)))
  }

  function OfLog<T, R>(part: Part<T>, log: ResourceLog<R>): seq<T> {
    match log
    case Received(None, scopes) => OfResource(part, scopes, "")
    case Received(Some(uid), scopes) => OfResource(part, scopes, uid)
    case _ => []
  }

  function OfLogs<T, R>(part: Part<T>, logs: seq<ResourceLog<R>>): seq<T> {
    Concat(seq(|logs|, i requires 0 <= i < |logs| => OfLog(part, logs[i])))
  }

  /** What is appended for the records: a log for each sort there is any of,
      and nothing but the first error if one is malformed. */
  ghost predicate Outcome<C, R>(
      lib: Library<C, R>, logs: seq<ResourceLog<R>>, output: seq<ResourceLog<R>>, error: Option<ParseError>) {
    var entities, mappings := OfLogs(EntityPart(lib), logs), OfLogs(MappingPart(lib), logs);
    var errors := OfLogs(ErrorPart(lib), logs);
    if errors != [] then output == logs && error == Some(errors[0])
    else
      && error == None
      && output == logs + (if entities == [] then [] else [EntityStateEvents(entities)])
                        + (if mappings == [] then [] else [ServiceMappings(mappings)])
  }

  // ----- The three goroutines -----

  datatype Generator = Scanning | ClosingErrors | ClosingItems | GeneratorDone

  datatype Builder<C> = Receiving | Building(finding: Finding<C>) | BuilderDone

  datatype Caller<R> = AwaitingError | WaitingForBoth | Returned(logs: seq<ResourceLog<R>>, error: Option<ParseError>)

  /** `position` counts the findings the generator is done with. */
  datatype State<C, R> = State(
    generator: Generator, position: nat, builder: Builder<C>, caller: Caller<R>,
    entities: seq<R>, mappings: seq<R>)

  datatype Step =
    | PassOver | EndOfLogs | SendItem | SendError | CloseErrors | CloseItems
    | Build | SeeItemsClosed | SeeErrorsClosed | BothFinished

  const ALL_STEPS := {
    PassOver, EndOfLogs, SendItem, SendError, CloseErrors, CloseItems,
    Build, SeeItemsClosed, SeeErrorsClosed, BothFinished}

  predicate CanStep<C, R>(findings: seq<Finding<C>>, s: State<C, R>, step: Step) {
    var scanning := s.generator.Scanning? && s.position < |findings|;
    match step
    case PassOver => scanning && findings[s.position].Nothing?
    case EndOfLogs => s.generator.Scanning? && s.position >= |findings|
    case SendItem => scanning && findings[s.position].Found? && s.builder.Receiving?
    case SendError => scanning && findings[s.position].Broken? && s.caller.AwaitingError?
    case CloseErrors => s.generator.ClosingErrors?
    case CloseItems => s.generator.ClosingItems?
    case Build => s.builder.Building?
    case SeeItemsClosed => s.builder.Receiving? && s.generator.GeneratorDone?
    case SeeErrorsClosed => s.caller.AwaitingError? && (s.generator.ClosingItems? || s.generator.GeneratorDone?)
    case BothFinished => s.caller.WaitingForBoth? && s.generator.GeneratorDone? && s.builder.BuilderDone?
  }

  function Next<C, R>(
      lib: Library<C, R>, logs: seq<ResourceLog<R>>, findings: seq<Finding<C>>, s: State<C, R>, step: Step): State<C, R>
    requires CanStep(findings, s, step)
  {
    match step
    case PassOver => s.(position := s.position + 1)
    case EndOfLogs => s.(generator := ClosingErrors)
    case SendItem => s.(position := s.position + 1, builder := Building(findings[s.position]))
    case SendError => s.(generator := ClosingErrors, caller := Returned(logs, Some(findings[s.position].error)))
    case CloseErrors => s.(generator := ClosingItems)
    case CloseItems => s.(generator := GeneratorDone)
    case Build =>
      s.(builder := Receiving,
         entities := s.entities + EntityRecords(lib, s.builder.finding),
         mappings := s.mappings + MappingRecords(lib, s.builder.finding))
    case SeeItemsClosed => s.(builder := BuilderDone)
    case SeeErrorsClosed => s.(caller := WaitingForBoth)
    case BothFinished => s.(caller := Returned(logs + Appended(s.entities, s.mappings), None))
  }

  function Start<C, R>(): State<C, R> {
    State(Scanning, 0, Receiving, AwaitingError, [], [])
  }

  predicate AllFinished<C, R>(s: State<C, R>) {
    s.generator.GeneratorDone? && s.builder.BuilderDone? && s.caller.Returned?
  }

  // ----- What holds in every reachable state -----

  ghost predicate BuiltSoFar<C, R>(lib: Library<C, R>, findings: seq<Finding<C>>, s: State<C, R>) {
    && s.position <= Stop(findings) <= |findings|
    && var pending := if s.builder.Building? then s.builder.finding else Nothing;
    && s.entities + EntityRecords(lib, pending) == AllEntityRecords(lib, findings[..s.position])
    && s.mappings + MappingRecords(lib, pending) == AllMappingRecords(lib, findings[..s.position])
  }

  /** The outcome a sequential run has: the first error and the logs as they
      came, or the logs with the generated records appended. */
  ghost predicate RightReturn<C, R>(
      lib: Library<C, R>, logs: seq<ResourceLog<R>>, findings: seq<Finding<C>>, caller: Caller<R>) {
    var stop := Stop(findings);
    caller.Returned? && stop <= |findings| ==>
      if stop < |findings|
      then findings[stop].Broken? && caller == Returned(logs, Some(findings[stop].error))
      else caller == Returned(logs + Appended(AllEntityRecords(lib, findings), AllMappingRecords(lib, findings)), None)
  }

  ghost predicate Inv<C, R>(lib: Library<C, R>, logs: seq<ResourceLog<R>>, findings: seq<Finding<C>>, s: State<C, R>) {
    && BuiltSoFar(lib, findings, s)
    && RightReturn(lib, logs, findings, s.caller)
    && (!s.generator.Scanning? ==> s.position == Stop(findings))
    && (s.builder.BuilderDone? ==> s.generator.GeneratorDone?)
    && (s.caller.WaitingForBoth? ==> s.generator.ClosingItems? || s.generator.GeneratorDone?)
    && (!s.generator.Scanning? ==> (s.caller.Returned? && s.caller.error.Some? <==> Stop(findings) < |findings|))
    && (s.generator.Scanning? ==> s.caller.AwaitingError?)
  }

  lemma StartInv<C, R>(lib: Library<C, R>, logs: seq<ResourceLog<R>>, findings: seq<Finding<C>>)
    ensures Inv(lib, logs, findings, Start())
  {
    StopFacts(findings);
  }

  lemma StepKeepsInv<C, R>(
      lib: Library<C, R>, logs: seq<ResourceLog<R>>, findings: seq<Finding<C>>, s: State<C, R>, step: Step)
    requires Inv(lib, logs, findings, s) && CanStep(findings, s, step)
    ensures Inv(lib, logs, findings, Next(lib, logs, findings, s, step))
  {
    StopFacts(findings);
    if step.PassOver? || step.SendItem? {
      assert findings[..s.position + 1][..s.position] == findings[..s.position];
    }
    assert findings[..|findings|] == findings;
    if step.BothFinished? {
      assert s.entities == s.entities + EntityRecords(lib, Nothing) == AllEntityRecords(lib, findings);
      assert s.mappings == s.mappings + MappingRecords(lib, Nothing) == AllMappingRecords(lib, findings);
    }
  }

  /** No deadlock: until all three have finished, one of them can move. */
  lemma NeverStuck<C, R>(lib: Library<C, R>, logs: seq<ResourceLog<R>>, findings: seq<Finding<C>>, s: State<C, R>)
    requires Inv(lib, logs, findings, s)
    ensures AllFinished(s) <==> forall step :: step in ALL_STEPS ==> !CanStep(findings, s, step)
  {
    if !AllFinished(s) {
      var step :=
        if s.builder.Building? then Build
        else if s.generator.Scanning? then
          if s.position == |findings| then EndOfLogs
          else if findings[s.position].Nothing? then PassOver
          else if findings[s.position].Found? then SendItem
          else SendError
        else if s.generator.ClosingErrors? then CloseErrors
        else if s.generator.ClosingItems? then CloseItems
        else if s.builder.Receiving? then SeeItemsClosed
        else if s.caller.AwaitingError? then SeeErrorsClosed
        else BothFinished;
      assert step in ALL_STEPS && CanStep(findings, s, step);
    }
  }

  /** What is left to do: every step makes it smaller. */
  function Work<C, R>(findings: seq<Finding<C>>, s: State<C, R>): nat {
    (match s.generator case Scanning => 3 case ClosingErrors => 2 case ClosingItems => 1 case GeneratorDone => 0) +
    2 * (if s.position <= |findings| then |findings| - s.position else 0) +
    (match s.builder case Building(_) => 2 case Receiving => 1 case BuilderDone => 0) +
    (match s.caller case AwaitingError => 2 case WaitingForBoth => 1 case Returned(_, _) => 0)
  }

  lemma StepDoesWork<C, R>(
      lib: Library<C, R>, logs: seq<ResourceLog<R>>, findings: seq<Finding<C>>, s: State<C, R>, step: Step)
    requires Inv(lib, logs, findings, s) && CanStep(findings, s, step)
    ensures Work(findings, Next(lib, logs, findings, s, step)) < Work(findings, s)
  {
  }

  predicate IsRun<C, R>(
      lib: Library<C, R>, logs: seq<ResourceLog<R>>, findings: seq<Finding<C>>, s: State<C, R>, steps: seq<Step>)
    decreases |steps|
  {
    steps == [] ||
    (CanStep(findings, s, steps[0]) && IsRun(lib, logs, findings, Next(lib, logs, findings, s, steps[0]), steps[1..]))
  }

  function Run<C, R>(
      lib: Library<C, R>, logs: seq<ResourceLog<R>>, findings: seq<Finding<C>>, s: State<C, R>,
      steps: seq<Step>): State<C, R>
    requires IsRun(lib, logs, findings, s, steps)
    decreases |steps|
  {
    if steps == [] then s else Run(lib, logs, findings, Next(lib, logs, findings, s, steps[0]), steps[1..])
  }

  lemma {:induction false} RunKeepsInv<C, R>(
      lib: Library<C, R>, logs: seq<ResourceLog<R>>, findings: seq<Finding<C>>, s: State<C, R>, steps: seq<Step>)
    requires Inv(lib, logs, findings, s) && IsRun(lib, logs, findings, s, steps)
    ensures Inv(lib, logs, findings, Run(lib, logs, findings, s, steps))
    ensures |steps| + Work(findings, Run(lib, logs, findings, s, steps)) <= Work(findings, s)
    decreases |steps|
  {
    if steps != [] {
      StepKeepsInv(lib, logs, findings, s, steps[0]);
      StepDoesWork(lib, logs, findings, s, steps[0]);
      RunKeepsInv(lib, logs, findings, Next(lib, logs, findings, s, steps[0]), steps[1..]);
    }
  }

  // ----- Findings and records tell the same -----

  /** What findings give, in order. */
  function Gathered<C, T>(gives: Finding<C> -> seq<T>, findings: seq<Finding<C>>): seq<T> {
    if findings == [] then []
    else Gathered(gives, findings[..|findings| - 1]) + gives(findings[|findings| - 1])
  }

  lemma {:induction false} GatheredConcat<C, T>(gives: Finding<C> -> seq<T>, a: seq<Finding<C>>, b: seq<Finding<C>>)
    ensures Gathered(gives, a + b) == Gathered(gives, a) + Gathered(gives, b)
    decreases |b|
  {
    if b == [] {
      assert a + b == a;
    } else {
      assert (a + b)[..|a + b| - 1] == a + b[..|b| - 1];
      GatheredConcat(gives, a, b[..|b| - 1]);
    }
  }

  lemma GatheredOne<C, T>(gives: Finding<C> -> seq<T>, f: Finding<C>)
    ensures Gathered(gives, [f]) == gives(f)
  {
    assert [f][..0] == [];
  }

  /** What a finding gives is the part of the record it comes from. */
  ghost predicate Agrees<C(!new), R, T>(lib: Library<C, R>, gives: Finding<C> -> seq<T>, part: Part<T>) {
    forall lr, uid :: gives(ExtractManifest(lib, lr, uid)) == part(lr, uid)
  }

  lemma OfScopeFirst<T>(part: Part<T>, records: seq<LogRecord>, uid: string)
    requires records != []
    ensures OfScope(part, records, uid) == part(records[0], uid) + OfScope(part, records[1..], uid)
  {
    var rest := records[1..];
    var parts := seq(|records|, k requires 0 <= k < |records| => part(records[k], uid));
    assert parts[1..] == seq(|rest|, k requires 0 <= k < |rest| => part(rest[k], uid));
  }

  lemma OfResourceFirst<T>(part: Part<T>, scopes: seq<seq<LogRecord>>, uid: string)
    requires scopes != []
    ensures OfResource(part, scopes, uid) == OfScope(part, scopes[0], uid) + OfResource(part, scopes[1..], uid)
  {
    var rest := scopes[1..];
    var parts := seq(|scopes|, j requires 0 <= j < |scopes| => OfScope(part, scopes[j], uid));
    assert parts[1..] == seq(|rest|, j requires 0 <= j < |rest| => OfScope(part, rest[j], uid));
  }

  lemma OfLogsFirst<T, R>(part: Part<T>, logs: seq<ResourceLog<R>>)
    requires logs != []
    ensures OfLogs(part, logs) == OfLog(part, logs[0]) + OfLogs(part, logs[1..])
  {
    var rest := logs[1..];
    var parts := seq(|logs|, i requires 0 <= i < |logs| => OfLog(part, logs[i]));
    assert parts[1..] == seq(|rest|, i requires 0 <= i < |rest| => OfLog(part, rest[i]));
  }

  lemma {:induction false} ScopeGathers<C(!new), R, T>(
      lib: Library<C, R>, gives: Finding<C> -> seq<T>, part: Part<T>, records: seq<LogRecord>, uid: string)
    requires Agrees(lib, gives, part)
    ensures Gathered(gives, ScopeFindings(lib, records, uid)) == OfScope(part, records, uid)
  {
    if records != [] {
      var first, rest := ExtractManifest(lib, records[0], uid), records[1..];
      GatheredConcat(gives, [first], ScopeFindings(lib, rest, uid));
      GatheredOne(gives, first);
      ScopeGathers(lib, gives, part, rest, uid);
      OfScopeFirst(part, records, uid);
    }
  }

  lemma {:induction false} ResourceGathers<C(!new), R, T>(
      lib: Library<C, R>, gives: Finding<C> -> seq<T>, part: Part<T>, scopes: seq<seq<LogRecord>>, uid: string)
    requires Agrees(lib, gives, part)
    ensures Gathered(gives, ResourceFindings(lib, scopes, uid)) == OfResource(part, scopes, uid)
  {
    if scopes != [] {
      var rest := scopes[1..];
      GatheredConcat(gives, ScopeFindings(lib, scopes[0], uid), ResourceFindings(lib, rest, uid));
      ScopeGathers(lib, gives, part, scopes[0], uid);
      ResourceGathers(lib, gives, part, rest, uid);
      OfResourceFirst(part, scopes, uid);
    }
  }

  lemma LogGathers<C(!new), R, T>(
      lib: Library<C, R>, gives: Finding<C> -> seq<T>, part: Part<T>, log: ResourceLog<R>)
    requires Agrees(lib, gives, part)
    ensures Gathered(gives, LogFindings(lib, log)) == OfLog(part, log)
  {
    match log
    case Received(None, scopes) => ResourceGathers(lib, gives, part, scopes, "");
    case Received(Some(uid), scopes) => ResourceGathers(lib, gives, part, scopes, uid);
    case _ =>
  }

  lemma {:induction false} LogsGather<C(!new), R, T>(
      lib: Library<C, R>, gives: Finding<C> -> seq<T>, part: Part<T>, logs: seq<ResourceLog<R>>)
    requires Agrees(lib, gives, part)
    ensures Gathered(gives, Findings(lib, logs)) == OfLogs(part, logs)
  {
    if logs != [] {
      LogGathers(lib, gives, part, logs[0]);
      GatheredConcat(gives, LogFindings(lib, logs[0]), Findings(lib, logs[1..]));
      LogsGather(lib, gives, part, logs[1..]);
      OfLogsFirst(part, logs);
    }
  }

  lemma {:induction false} AllRecordsGather<C, R>(lib: Library<C, R>, findings: seq<Finding<C>>)
    ensures AllEntityRecords(lib, findings) == Gathered(f => EntityRecords(lib, f), findings)
    ensures AllMappingRecords(lib, findings) == Gathered(f => MappingRecords(lib, f), findings)
  {
    if findings != [] {
      AllRecordsGather(lib, findings[..|findings| - 1]);
    }
  }

  /** The generator stops at the first error there is. */
  lemma {:induction false} StopsAtFirstError<C>(findings: seq<Finding<C>>)
    ensures var errors := Gathered(FindingErrors, findings);
      if errors == [] then Stop(findings) == |findings|
      else Stop(findings) < |findings| && findings[Stop(findings)] == Broken(errors[0])
  {
    if findings != [] {
      GatheredConcat(FindingErrors, [findings[0]], findings[1..]);
      GatheredOne(FindingErrors, findings[0]);
      assert [findings[0]] + findings[1..] == findings;
      StopsAtFirstError(findings[1..]);
    }
  }

  /** The outcome told from the findings is the one told from the records. */
  lemma FindingsTellOutcome<C(!new), R>(lib: Library<C, R>, logs: seq<ResourceLog<R>>, caller: Caller<R>)
    requires RightReturn(lib, logs, Findings(lib, logs), caller) && caller.Returned?
    ensures Outcome(lib, logs, caller.logs, caller.error)
  {
    var findings := Findings(lib, logs);
    var entities, mappings := f => EntityRecords(lib, f), f => MappingRecords(lib, f);
    forall lr, uid
      ensures entities(ExtractManifest(lib, lr, uid)) == EntityPart(lib)(lr, uid)
      ensures mappings(ExtractManifest(lib, lr, uid)) == MappingPart(lib)(lr, uid)
      ensures FindingErrors(ExtractManifest(lib, lr, uid)) == ErrorPart(lib)(lr, uid)
    {
      RecordAdds(lib, lr, uid);
    }
    LogsGather(lib, entities, EntityPart(lib), logs);
    LogsGather(lib, mappings, MappingPart(lib), logs);
    LogsGather(lib, FindingErrors, ErrorPart(lib), logs);
    AllRecordsGather(lib, findings);
    StopsAtFirstError(findings);
  }

  /** Every interleaving: it is bounded in length, it can be continued until
      all three goroutines have finished, and once the caller has returned it
      has returned what a sequential pass would. */
  lemma EveryInterleaving<C(!new), R>(lib: Library<C, R>, logs: seq<ResourceLog<R>>, steps: seq<Step>)
    requires IsRun(lib, logs, Findings(lib, logs), Start(), steps)
    ensures var findings := Findings(lib, logs); var s := Run(lib, logs, findings, Start(), steps);
      && |steps| <= 2 * |findings| + 6
      && RightReturn(lib, logs, findings, s.caller)
      && (s.caller.Returned? ==> Outcome(lib, logs, s.caller.logs, s.caller.error))
      && (AllFinished(s) || exists step :: CanStep(findings, s, step))
  {
    var findings := Findings(lib, logs);
    StartInv(lib, logs, findings);
    RunKeepsInv(lib, logs, findings, Start(), steps);
    var s := Run(lib, logs, findings, Start(), steps);
    NeverStuck(lib, logs, findings, s);
    if s.caller.Returned? {
      FindingsTellOutcome(lib, logs, s.caller);
    }
  }

  /** processLogs under any interleaving: all goroutines finish, and the
      caller returns what a sequential pass over the records would. */
  method ProcessLogs<C(==, !new), R(==)>(lib: Library<C, R>, logs: seq<ResourceLog<R>>)
    returns (output: seq<ResourceLog<R>>, error: Option<ParseError>)
    ensures var findings := Findings(lib, logs); var stop := Stop(findings);
      && stop <= |findings|
      && (stop < |findings| ==> findings[stop].Broken? && output == logs && error == Some(findings[stop].error))
      && (stop == |findings| ==>
            && error == None
            && output == logs + Appended(AllEntityRecords(lib, findings), AllMappingRecords(lib, findings)))
    ensures Outcome(lib, logs, output, error)
  {
    var findings := Findings(lib, logs);
    var s: State<C, R> := Start();
    StartInv(lib, logs, findings);
    while !AllFinished(s)
      invariant Inv(lib, logs, findings, s)
      decreases Work(findings, s)
    {
      NeverStuck(lib, logs, findings, s);
      var step :| step in ALL_STEPS && CanStep(findings, s, step);
      StepKeepsInv(lib, logs, findings, s, step);
      s := Next(lib, logs, findings, s, step);
    }
    StopFacts(findings);
    FindingsTellOutcome(lib, logs, s.caller);
    output, error := s.caller.logs, s.caller.error;
  }
}
