/** Deriving entity and relationship events from attributes, without sending
    an entity twice when a relationship implies it. */
module EventDetection {
  import opened Outcomes
  import opened AttributeSplit
  import opened Sequences
  import KeyBuilder

  datatype EntityConfig = EntityConfig(entity: string, ids: seq<string>, attributes: seq<string>)

  datatype EntityEvent = EntityEvent(entity: string, action: string)

  datatype RelationshipEvent = RelationshipEvent(
    kind: string, source: string, destination: string, action: string, attributes: seq<string>)

  datatype Entity = Entity(action: string, kind: string, ids: AttributesMap, attributes: AttributesMap)

  datatype Relationship = Relationship(
    action: string, kind: string, source: Entity, destination: Entity, attributes: AttributesMap)

  /** Entity configurations by entity type. */
  type Configs = map<string, EntityConfig>

  ghost predicate WellConfigured(configs: Configs) {
    forall t :: t in configs ==> configs[t].entity == t
  }

  // ----- Building entities -----

  function PickKeys(keys: seq<string>, attrs: AttributesMap): AttributesMap {
    map k | k in keys && k in attrs :: attrs[k]
  }

  /** None when no key is required or one is missing. */
  function RequiredAttributes(keys: seq<string>, attrs: AttributesMap): Option<AttributesMap> {
    if keys == [] || exists k :: k in keys && k !in attrs then None else Some(PickKeys(keys, attrs))
  }

  /** The loop behind it, which gives up at the first missing key. */
  method GetRequiredAttributes(keys: seq<string>, attrs: AttributesMap) returns (r: Option<AttributesMap>)
    ensures r == RequiredAttributes(keys, attrs)
  {
    if keys == [] {
      return None;
    }
    var picked: AttributesMap := map[];
    for i := 0 to |keys|
      invariant forall j :: 0 <= j < i ==> keys[j] in attrs
      invariant picked == PickKeys(keys[..i], attrs)
    {
      if keys[i] !in attrs {
        return None;
      }
      assert keys[..i + 1] == keys[..i] + [keys[i]];
      picked := picked[keys[i] := attrs[keys[i]]];
    }
    assert keys[..|keys|] == keys;
    r := Some(picked);
  }

  /** createEntity on the merged attributes; later maps win. */
  function CreateEntity(config: EntityConfig, attrs: AttributesMap): Option<Entity> {
    match RequiredAttributes(config.ids, attrs)
    case None => None
    case Some(ids) => Some(Entity("", config.entity, ids, PickKeys(config.attributes, attrs)))
  }

  function GetEntity(configs: Configs, kind: string, attrs: Attributes): Option<Entity> {
    if kind in configs then CreateEntity(configs[kind], attrs.common) else None
  }

  function GetEndpoint(configs: Configs, kind: string, common: AttributesMap, own: AttributesMap): Option<Entity> {
    if kind in configs then CreateEntity(configs[kind], common + own) else None
  }

  function EntityKey(hash: KeyBuilder.EntityHash, e: Entity): Option<string> {
    KeyBuilder.BuildEntityKey(hash, KeyBuilder.Entity(e.kind, e.ids))
  }

  predicate IsAction(action: string) {
    action == "update" || action == "delete"
  }

  function MakeRelationship(configs: Configs, event: RelationshipEvent, attrs: Attributes): Option<Relationship> {
    if event.source == event.destination && attrs.source == map[] && attrs.destination == map[] then None
    else
      var source := GetEndpoint(configs, event.source, attrs.common, attrs.source);
      var dest := GetEndpoint(configs, event.destination, attrs.common, attrs.destination);
      if source.None? || dest.None? || !IsAction(event.action) then None
      else
        var picked := PickKeys(event.attributes, attrs.common);
        Some(Relationship(event.action, event.kind, source.value, dest.value, picked))
  }

  // ----- The same told from the attributes -----

  /** `m` has those of the keys that are prefixed or common attributes; the
      prefixed one wins. */
  ghost predicate Picked(m: AttributesMap, keys: seq<string>, own: AttributesMap, common: AttributesMap) {
    && (forall k :: k in m <==> k in keys && (k in own || k in common))
    && (forall k :: k in m && k in own ==> m[k] == own[k])
    && (forall k :: k in m && k !in own ==> k in common && m[k] == common[k])
  }

  /** The type is configured with IDs, and every one of them is there. */
  ghost predicate Identified(configs: Configs, kind: string, own: AttributesMap, common: AttributesMap) {
    && kind in configs && configs[kind].ids != []
    && forall k :: k in configs[kind].ids ==> k in own || k in common
  }

  ghost predicate IsEntity(
      configs: Configs, kind: string, own: AttributesMap, common: AttributesMap, action: string, e: Entity) {
    && Identified(configs, kind, own, common) && e.kind == configs[kind].entity && e.action == action
    && Picked(e.ids, configs[kind].ids, own, common)
    && Picked(e.attributes, configs[kind].attributes, own, common)
  }

  /** An event makes a relationship of two identified ends; of one type they
      must not both be without a prefixed attribute. */
  ghost predicate Makes(configs: Configs, event: RelationshipEvent, attrs: Attributes) {
    && Identified(configs, event.source, attrs.source, attrs.common)
    && Identified(configs, event.destination, attrs.destination, attrs.common)
    && (event.action == "update" || event.action == "delete")
    && !(event.source == event.destination && attrs.source == map[] && attrs.destination == map[])
  }

  ghost predicate IsMade(configs: Configs, event: RelationshipEvent, attrs: Attributes, r: Relationship) {
    && r.kind == event.kind && r.action == event.action
    && IsEntity(configs, event.source, attrs.source, attrs.common, "", r.source)
    && IsEntity(configs, event.destination, attrs.destination, attrs.common, "", r.destination)
    && Picked(r.attributes, event.attributes, map[], attrs.common)
  }

  lemma PickedIff(m: AttributesMap, keys: seq<string>, own: AttributesMap, common: AttributesMap)
    ensures Picked(m, keys, own, common) <==> m == PickKeys(keys, common + own)
  {
    assert Picked(PickKeys(keys, common + own), keys, own, common);
    if Picked(m, keys, own, common) {
      var n := PickKeys(keys, common + own);
      assert forall k :: k in m <==> k in n;
    }
  }

  lemma EndpointIff(configs: Configs, kind: string, own: AttributesMap, common: AttributesMap, e: Entity)
    ensures GetEndpoint(configs, kind, common, own) == Some(e) <==> IsEntity(configs, kind, own, common, "", e)
    ensures GetEndpoint(configs, kind, common, own).Some? <==> Identified(configs, kind, own, common)
  {
    if kind in configs {
      PickedIff(e.ids, configs[kind].ids, own, common);
      PickedIff(e.attributes, configs[kind].attributes, own, common);
      assert forall k :: k in common + own <==> k in own || k in common;
    }
  }

  /** Exactly the right events make a relationship, and the right one. */
  lemma MakesIff(configs: Configs, event: RelationshipEvent, attrs: Attributes, r: Relationship)
    ensures MakeRelationship(configs, event, attrs).Some? <==> Makes(configs, event, attrs)
    ensures MakeRelationship(configs, event, attrs) == Some(r) <==>
            Makes(configs, event, attrs) && IsMade(configs, event, attrs, r)
  {
    EndpointIff(configs, event.source, attrs.source, attrs.common, r.source);
    EndpointIff(configs, event.destination, attrs.destination, attrs.common, r.destination);
    PickedIff(r.attributes, event.attributes, map[], attrs.common);
    assert attrs.common + map[] == attrs.common;
  }

  lemma NoneMade(configs: Configs, event: RelationshipEvent, attrs: Attributes)
    requires MakeRelationship(configs, event, attrs).None?
    ensures !Makes(configs, event, attrs)
  {
    var none := Entity("", "", map[], map[]);
    MakesIff(configs, event, attrs, Relationship("", "", none, none, map[]));
  }

  // ----- The three loops -----

  datatype Detector = Detector(configs: Configs, hash: KeyBuilder.EntityHash)

  function DetectOne(d: Detector, attrs: Attributes, event: EntityEvent): Option<(string, Entity)> {
    match GetEntity(d.configs, event.entity, attrs)
    case None => None
    case Some(e) =>
      match EntityKey(d.hash, e)
      case None => None
      case Some(key) => Some((key, e.(action := event.action)))
  }

  /** Entities by key; a later event with the same key replaces an earlier one. */
  function Detected(d: Detector, attrs: Attributes, events: seq<EntityEvent>): map<string, Entity> {
    if events == [] then map[]
    else
      var before := Detected(d, attrs, events[..|events| - 1]);
      match DetectOne(d, attrs, events[|events| - 1])
      case None => before
      case Some(found) => before[found.0 := found.1]
  }

  /** The event makes `e` of the common attributes, and `e` has the key. */
  ghost predicate DetectsAs(d: Detector, attrs: Attributes, event: EntityEvent, key: string, e: Entity) {
    IsEntity(d.configs, event.entity, map[], attrs.common, event.action, e) && EntityKey(d.hash, e) == Some(key)
  }

  ghost predicate Detects(d: Detector, attrs: Attributes, event: EntityEvent, key: string) {
    exists e :: DetectsAs(d, attrs, event, key, e)
  }

  /** `j` is the last event that detects an entity with the key. */
  ghost predicate LastToDetect(d: Detector, attrs: Attributes, events: seq<EntityEvent>, key: string, j: nat) {
    && j < |events| && Detects(d, attrs, events[j], key)
    && forall i :: j < i < |events| ==> !Detects(d, attrs, events[i], key)
  }

  /** The entry of a key is what the last event to detect it makes. */
  ghost predicate EntryByLast(
      d: Detector, attrs: Attributes, events: seq<EntityEvent>, m: map<string, Entity>, key: string) {
    if key in m
    then exists j: nat :: LastToDetect(d, attrs, events, key, j) && DetectsAs(d, attrs, events[j], key, m[key])
    else forall j :: 0 <= j < |events| ==> !Detects(d, attrs, events[j], key)
  }

  lemma DetectsIff(d: Detector, attrs: Attributes, event: EntityEvent, key: string, e: Entity)
    ensures DetectsAs(d, attrs, event, key, e) <==> DetectOne(d, attrs, event) == Some((key, e))
  {
    EndpointIff(d.configs, event.entity, map[], attrs.common, e.(action := ""));
    assert attrs.common + map[] == attrs.common;
  }

  lemma EntryStays(
      d: Detector, attrs: Attributes, front: seq<EntityEvent>, last: EntityEvent, m: map<string, Entity>, key: string)
    requires EntryByLast(d, attrs, front, m, key) && !Detects(d, attrs, last, key)
    ensures EntryByLast(d, attrs, front + [last], m, key)
  {
    var events := front + [last];
    if key in m {
      var j: nat :| LastToDetect(d, attrs, front, key, j) && DetectsAs(d, attrs, front[j], key, m[key]);
      assert events[j] == front[j];
      assert LastToDetect(d, attrs, events, key, j);
    }
  }

  /** A key is detected exactly when some event detects it, and the last such
      event decides the entity. */
  lemma {:induction false} DetectedByLast(d: Detector, attrs: Attributes, events: seq<EntityEvent>, key: string)
    ensures EntryByLast(d, attrs, events, Detected(d, attrs, events), key)
  {
    if events != [] {
      var n := |events| - 1;
      DetectedByLast(d, attrs, events[..n], key);
      var one := DetectOne(d, attrs, events[n]);
      if one.Some? {
        DetectsIff(d, attrs, events[n], one.value.0, one.value.1);
      }
      if Detects(d, attrs, events[n], key) {
        var e :| DetectsAs(d, attrs, events[n], key, e);
        DetectsIff(d, attrs, events[n], key, e);
        assert LastToDetect(d, attrs, events, key, n);
      } else {
        EntryStays(d, attrs, events[..n], events[n], Detected(d, attrs, events[..n]), key);
        assert events[..n] + [events[n]] == events;
      }
    }
  }

  method GetEntityEvents(d: Detector, attrs: Attributes, events: seq<EntityEvent>)
    returns (detected: map<string, Entity>)
    ensures detected == Detected(d, attrs, events)
    ensures forall key :: EntryByLast(d, attrs, events, detected, key)
  {
    detected := map[];
    for i := 0 to |events|
      invariant detected == Detected(d, attrs, events[..i])
    {
      assert events[..i + 1][..i] == events[..i];
      var entity := GetEntity(d.configs, events[i].entity, attrs);
      if entity.Some? {
        var key := EntityKey(d.hash, entity.value);
        if key.Some? {
          detected := detected[key.value := entity.value.(action := events[i].action)];
        }
      }
    }
    assert events[..|events|] == events;
    forall key ensures EntryByLast(d, attrs, events, detected, key) {
      DetectedByLast(d, attrs, events, key);
    }
  }

  function Relationships(d: Detector, attrs: Attributes, events: seq<RelationshipEvent>): seq<Relationship> {
    if events == [] then []
    else
      var before := Relationships(d, attrs, events[..|events| - 1]);
      match MakeRelationship(d.configs, events[|events| - 1], attrs)
      case None => before
      case Some(r) => before + [r]
  }

  /** `found` are the relationships that can be made of the events at the
      ascending places `from`, and of no others. */
  ghost predicate MadeFrom(
      d: Detector, attrs: Attributes, events: seq<RelationshipEvent>, found: seq<Relationship>, from: seq<nat>) {
    && |from| == |found|
    && (forall i, j :: 0 <= i < j < |from| ==> from[i] < from[j])
    && (forall i :: 0 <= i < |from| ==>
          && from[i] < |events| && Makes(d.configs, events[from[i]], attrs)
          && IsMade(d.configs, events[from[i]], attrs, found[i]))
    && (forall k :: 0 <= k < |events| && Makes(d.configs, events[k], attrs) ==> k in from)
  }

  /** The relationships of the events, each from one event and in their order. */
  method GetRelationshipEvents(d: Detector, attrs: Attributes, events: seq<RelationshipEvent>)
    returns (found: seq<Relationship>, ghost from: seq<nat>)
    ensures MadeFrom(d, attrs, events, found, from)
    ensures found == Relationships(d, attrs, events)
  {
    found, from := [], [];
    for i := 0 to |events|
      invariant found == Relationships(d, attrs, events[..i])
      invariant MadeFrom(d, attrs, events[..i], found, from)
    {
      assert events[..i + 1][..i] == events[..i];
      var r := MakeRelationship(d.configs, events[i], attrs);
      MadeFromOneMore(d, attrs, events, i, found, from);
      if r.Some? {
        found := found + [r.value];
        from := from + [i];
      }
    }
    assert events[..|events|] == events;
  }

  lemma MadeFromOneMore(
      d: Detector, attrs: Attributes, events: seq<RelationshipEvent>, i: nat, found: seq<Relationship>, from: seq<nat>)
    requires i < |events| && MadeFrom(d, attrs, events[..i], found, from)
    ensures var r := MakeRelationship(d.configs, events[i], attrs);
      if r.Some? then MadeFrom(d, attrs, events[..i + 1], found + [r.value], from + [i])
      else MadeFrom(d, attrs, events[..i + 1], found, from)
  {
    var r := MakeRelationship(d.configs, events[i], attrs);
    assert events[..i + 1] == events[..i] + [events[i]];
    if r.None? {
      NoneMade(d.configs, events[i], attrs);
    } else {
      MakesIff(d.configs, events[i], attrs, r.value);
      MadeFromAdd(d, attrs, events[..i], events[i], found, r.value, from);
    }
  }

  lemma MadeFromAdd(
      d: Detector, attrs: Attributes, events: seq<RelationshipEvent>, event: RelationshipEvent,
      found: seq<Relationship>, r: Relationship, from: seq<nat>)
    requires MadeFrom(d, attrs, events, found, from)
    requires Makes(d.configs, event, attrs) && IsMade(d.configs, event, attrs, r)
    ensures MadeFrom(d, attrs, events + [event], found + [r], from + [|events|])
  {
    var more := from + [|events|];
    forall k | 0 <= k < |events + [event]| && Makes(d.configs, (events + [event])[k], attrs) ensures k in more {
      if k < |events| {
        assert k in from;
      } else {
        assert more[|from|] == k;
      }
    }
  }

  /** The first event that fired for a type. */
  function FirstEvent(events: seq<EntityEvent>, kind: string): Option<EntityEvent> {
    if events == [] then None
    else if events[0].entity == kind then Some(events[0])
    else FirstEvent(events[1..], kind)
  }

  lemma {:induction false} FirstEventIsFirst(events: seq<EntityEvent>, kind: string) returns (i: nat)
    ensures if FirstEvent(events, kind).None? then forall j :: 0 <= j < |events| ==> events[j].entity != kind
            else i < |events| && events[i] == FirstEvent(events, kind).value && events[i].entity == kind &&
                 forall j :: 0 <= j < i ==> events[j].entity != kind
  {
    i := 0;
    if events != [] && events[0].entity != kind {
      var rest := FirstEventIsFirst(events[1..], kind);
      assert forall j :: 0 < j < |events| ==> events[j] == events[1..][j - 1];
      i := rest + 1;
    }
  }

  datatype Verdict = Unkeyed | Suppressed | Inferred(entity: Entity)

  /** validateRelationshipEntity. */
  function Validate(d: Detector, e: Entity, events: seq<EntityEvent>, detected: map<string, Entity>): Verdict {
    match EntityKey(d.hash, e)
    case None => Unkeyed
    case Some(key) =>
      if key in detected then Suppressed
      else match FirstEvent(events, e.kind)
        case None => Suppressed
        case Some(event) => Inferred(e.(action := event.action))
  }

  /** The entities one relationship implies; an unkeyed source hides the destination too. */
  function InferredFrom(
      d: Detector, r: Relationship, events: seq<EntityEvent>, detected: map<string, Entity>): seq<Entity> {
    var source := Validate(d, r.source, events, detected);
    if source.Unkeyed? then []
    else
      var dest := Validate(d, r.destination, events, detected);
      (if source.Inferred? then [source.entity] else []) + (if dest.Inferred? then [dest.entity] else [])
  }

  function InferredFromAll(
      d: Detector, rs: seq<Relationship>, events: seq<EntityEvent>, detected: map<string, Entity>): seq<Entity> {
    if rs == [] then []
    else InferredFromAll(d, rs[..|rs| - 1], events, detected) + InferredFrom(d, rs[|rs| - 1], events, detected)
  }

  lemma InferredOneMore(
      d: Detector, rs: seq<Relationship>, i: nat, events: seq<EntityEvent>, detected: map<string, Entity>)
    requires i < |rs|
    ensures InferredFromAll(d, rs[..i + 1], events, detected) ==
            InferredFromAll(d, rs[..i], events, detected) + InferredFrom(d, rs[i], events, detected)
  {
    assert rs[..i + 1][..i] == rs[..i];
  }

  /** One turn of the loop: a source without a key skips the destination too. */
  method ValidateEnds(d: Detector, r: Relationship, events: seq<EntityEvent>, detected: map<string, Entity>)
    returns (inferred: seq<Entity>)
    ensures inferred == InferredFrom(d, r, events, detected)
  {
    inferred := [];
    var source := Validate(d, r.source, events, detected);
    if source.Unkeyed? {
      return;
    }
    if source.Inferred? {
      inferred := [source.entity];
    }
    var dest := Validate(d, r.destination, events, detected);
    if dest.Inferred? {
      inferred := inferred + [dest.entity];
    }
  }

  method ValidateEntityEvents(
      d: Detector, events: seq<EntityEvent>, detected: map<string, Entity>, rs: seq<Relationship>)
    returns (inferred: seq<Entity>)
    ensures inferred == InferredFromAll(d, rs, events, detected)
  {
    inferred := [];
    for i := 0 to |rs|
      invariant inferred == InferredFromAll(d, rs[..i], events, detected)
    {
      var found := ValidateEnds(d, rs[i], events, detected);
      inferred := inferred + found;
      InferredOneMore(d, rs, i, events, detected);
    }
    assert rs[..|rs|] == rs;
  }

  // ----- What is sent -----

  /** `e` is an end of some relationship, with the action of the first event
      of its type, and its key is none of those detected. */
  ghost predicate ProperlyInferred(
      d: Detector, e: Entity, rs: seq<Relationship>, events: seq<EntityEvent>, detected: map<string, Entity>) {
    && (exists r :: r in rs && (e == r.source.(action := e.action) || e == r.destination.(action := e.action)))
    && EntityKey(d.hash, e).Some? && EntityKey(d.hash, e).value !in detected
    && FirstEvent(events, e.kind).Some? && e.action == FirstEvent(events, e.kind).value.action
  }

  lemma InferredFromProperly(
      d: Detector, r: Relationship, rs: seq<Relationship>, events: seq<EntityEvent>, detected: map<string, Entity>)
    requires r in rs
    ensures forall e :: e in InferredFrom(d, r, events, detected) ==> ProperlyInferred(d, e, rs, events, detected)
  {
  }

  lemma {:induction false} InferredProperly(
      d: Detector, rs: seq<Relationship>, events: seq<EntityEvent>, detected: map<string, Entity>)
    ensures forall e :: e in InferredFromAll(d, rs, events, detected) ==> ProperlyInferred(d, e, rs, events, detected)
  {
    if rs != [] {
      var front, last := rs[..|rs| - 1], rs[|rs| - 1];
      InferredProperly(d, front, events, detected);
      InferredFromProperly(d, last, rs, events, detected);
      forall e | e in InferredFromAll(d, front, events, detected) ensures ProperlyInferred(d, e, rs, events, detected) {
        var r :| r in front && (e == r.source.(action := e.action) || e == r.destination.(action := e.action));
        assert r in rs;
      }
    }
  }

  /** Nothing that may be inferred is left out, unless its source has no key. */
  lemma {:induction false} InferredCompletely(
      d: Detector, rs: seq<Relationship>, events: seq<EntityEvent>, detected: map<string, Entity>,
      r: Relationship, e: Entity)
    requires r in rs && (e == r.source || e == r.destination) && EntityKey(d.hash, r.source).Some?
    requires EntityKey(d.hash, e).Some? && EntityKey(d.hash, e).value !in detected && FirstEvent(events, e.kind).Some?
    ensures e.(action := FirstEvent(events, e.kind).value.action) in InferredFromAll(d, rs, events, detected)
  {
    var front, last := rs[..|rs| - 1], rs[|rs| - 1];
    if r == last {
      assert e.(action := FirstEvent(events, e.kind).value.action) in InferredFrom(d, last, events, detected);
    } else {
      assert r in front;
      InferredCompletely(d, front, events, detected, r, e);
    }
  }

  /** An end is inferred when it and its source have keys, its own is not
      detected, and an event of its type fired. */
  ghost predicate Qualifies(
      d: Detector, r: Relationship, end: Entity, events: seq<EntityEvent>, detected: map<string, Entity>) {
    && EntityKey(d.hash, r.source).Some?
    && EntityKey(d.hash, end).Some? && EntityKey(d.hash, end).value !in detected
    && exists i :: 0 <= i < |events| && events[i].entity == end.kind
  }

  /** `e` is the end with the action of the first event of its type. */
  ghost predicate IsInferred(events: seq<EntityEvent>, end: Entity, e: Entity) {
    && e == end.(action := e.action)
    && exists i :: 0 <= i < |events| && events[i] == EntityEvent(end.kind, e.action) &&
                   forall j :: 0 <= j < i ==> events[j].entity != end.kind
  }

  /** `es` is what an end is inferred as, empty if it is not. */
  ghost predicate EndInferred(
      d: Detector, r: Relationship, end: Entity, events: seq<EntityEvent>, detected: map<string, Entity>,
      es: seq<Entity>) {
    if Qualifies(d, r, end, events, detected) then |es| == 1 && IsInferred(events, end, es[0]) else es == []
  }

  /** What a relationship implies: its source and then its destination. */
  ghost predicate EndsInferred(
      d: Detector, r: Relationship, events: seq<EntityEvent>, detected: map<string, Entity>, es: seq<Entity>) {
    exists i: nat :: i <= |es| && EndInferred(d, r, r.source, events, detected, es[..i]) &&
                     EndInferred(d, r, r.destination, events, detected, es[i..])
  }

  lemma ValidatedIsInferred(
      d: Detector, r: Relationship, end: Entity, events: seq<EntityEvent>, detected: map<string, Entity>)
    requires EntityKey(d.hash, r.source).Some?
    ensures var v := Validate(d, end, events, detected);
      EndInferred(d, r, end, events, detected, if v.Inferred? then [v.entity] else [])
  {
    var i := FirstEventIsFirst(events, end.kind);
  }

  lemma InferredFromIs(d: Detector, r: Relationship, events: seq<EntityEvent>, detected: map<string, Entity>)
    ensures EndsInferred(d, r, events, detected, InferredFrom(d, r, events, detected))
  {
    var es := InferredFrom(d, r, events, detected);
    if EntityKey(d.hash, r.source).None? {
      assert es[..0] == [] && es[0..] == [];
    } else {
      ValidatedIsInferred(d, r, r.source, events, detected);
      ValidatedIsInferred(d, r, r.destination, events, detected);
      var v := Validate(d, r.source, events, detected);
      var i := if v.Inferred? then 1 else 0;
      assert es[..i] == if v.Inferred? then [v.entity] else [];
      var w := Validate(d, r.destination, events, detected);
      assert es[i..] == if w.Inferred? then [w.entity] else [];
    }
  }

  lemma InferredFromLast(
      d: Detector, rs: seq<Relationship>, events: seq<EntityEvent>, detected: map<string, Entity>)
    returns (part: seq<Entity>)
    requires rs != []
    ensures EndsInferred(d, rs[|rs| - 1], events, detected, part)
    ensures InferredFromAll(d, rs, events, detected) ==
            InferredFromAll(d, rs[..|rs| - 1], events, detected) + part
  {
    part := InferredFrom(d, rs[|rs| - 1], events, detected);
    InferredFromIs(d, rs[|rs| - 1], events, detected);
  }

  /** `inferred` is, relationship after relationship, what each implies. */
  ghost predicate AllInferred(
      d: Detector, rs: seq<Relationship>, events: seq<EntityEvent>, detected: map<string, Entity>,
      inferred: seq<Entity>, parts: seq<seq<Entity>>) {
    && |parts| == |rs| && inferred == Concat(parts)
    && forall n :: 0 <= n < |rs| ==> EndsInferred(d, rs[n], events, detected, parts[n])
  }

  lemma AllInferredAdd(
      d: Detector, front: seq<Relationship>, last: Relationship, events: seq<EntityEvent>,
      detected: map<string, Entity>, inferred: seq<Entity>, part: seq<Entity>, parts: seq<seq<Entity>>)
    requires AllInferred(d, front, events, detected, inferred, parts) && EndsInferred(d, last, events, detected, part)
    ensures AllInferred(d, front + [last], events, detected, inferred + part, parts + [part])
  {
    ConcatOneMore(parts, part);
    var rs, more := front + [last], parts + [part];
    forall n | 0 <= n < |rs| ensures EndsInferred(d, rs[n], events, detected, more[n]) {
      if n < |front| {
        assert rs[n] == front[n] && more[n] == parts[n];
      }
    }
  }

  /** What is inferred, exactly. */
  lemma {:induction false} InferredExactly(
      d: Detector, rs: seq<Relationship>, events: seq<EntityEvent>, detected: map<string, Entity>)
    returns (parts: seq<seq<Entity>>)
    ensures AllInferred(d, rs, events, detected, InferredFromAll(d, rs, events, detected), parts)
  {
    parts := [];
    if rs != [] {
      var front, last := rs[..|rs| - 1], rs[|rs| - 1];
      parts := InferredExactly(d, front, events, detected);
      var part := InferredFromLast(d, rs, events, detected);
      AllInferredAdd(d, front, last, events, detected, InferredFromAll(d, front, events, detected), part, parts);
      assert rs == front + [last];
      parts := parts + [part];
    }
  }

  /** No prefixed attribute stands for an ID of the configured entity. */
  ghost predicate NotOverridden(config: EntityConfig, own: AttributesMap) {
    forall k :: k in config.ids ==> k !in own
  }

  lemma {:induction false} DetectedStays(d: Detector, attrs: Attributes, events: seq<EntityEvent>, event: EntityEvent)
    requires event in events && DetectOne(d, attrs, event).Some?
    ensures DetectOne(d, attrs, event).value.0 in Detected(d, attrs, events)
  {
    var front, last := events[..|events| - 1], events[|events| - 1];
    if event != last {
      assert event in front;
      DetectedStays(d, attrs, front, event);
    }
  }

  /** An end whose IDs come from unprefixed attributes has the key of the
      entity that its own event, if it fired, detected. */
  lemma UnprefixedEndIsDetected(
      d: Detector, attrs: Attributes, events: seq<EntityEvent>, kind: string, own: AttributesMap)
    requires WellConfigured(d.configs)
    requires GetEndpoint(d.configs, kind, attrs.common, own).Some? && NotOverridden(d.configs[kind], own)
    requires FirstEvent(events, kind).Some?
    ensures var key := EntityKey(d.hash, GetEndpoint(d.configs, kind, attrs.common, own).value);
      key.Some? ==> key.value in Detected(d, attrs, events)
  {
    var config := d.configs[kind];
    var e := GetEndpoint(d.configs, kind, attrs.common, own).value;
    var direct := GetEntity(d.configs, kind, attrs);
    assert forall k :: k in config.ids ==> k in attrs.common + own;
    assert PickKeys(config.ids, attrs.common + own) == PickKeys(config.ids, attrs.common);
    assert direct.Some? && EntityKey(d.hash, direct.value) == EntityKey(d.hash, e);
    var event := FirstEvent(events, kind).value;
    var i := FirstEventIsFirst(events, kind);
    if EntityKey(d.hash, e).Some? {
      DetectedStays(d, attrs, events, event);
    }
  }

  /** `e` is what some fired event has at one of its ends, with IDs that no
      prefixed attribute overrides, and an event of its own type fired. */
  ghost predicate UnprefixedEnd(
      d: Detector, attrs: Attributes, events: seq<EntityEvent>, event: RelationshipEvent, e: Entity) {
    && FirstEvent(events, e.kind).Some?
    && (|| (IsEntity(d.configs, event.source, attrs.source, attrs.common, "", e)
            && NotOverridden(d.configs[event.source], attrs.source))
        || (IsEntity(d.configs, event.destination, attrs.destination, attrs.common, "", e)
            && NotOverridden(d.configs[event.destination], attrs.destination)))
  }

  /** What is collected never repeats an end that its own event detected: if
      it has a key, that key is detected, and no inferred entity has it. */
  lemma UnprefixedEndIsSuppressed(
      d: Detector, attrs: Attributes, events: seq<EntityEvent>, rs: seq<Relationship>,
      event: RelationshipEvent, e: Entity)
    requires WellConfigured(d.configs) && UnprefixedEnd(d, attrs, events, event, e)
    ensures var detected, key := Detected(d, attrs, events), EntityKey(d.hash, e);
      && (key.Some? ==> key.value in detected)
      && forall i :: i in InferredFromAll(d, rs, events, detected) ==> EntityKey(d.hash, i) != key
  {
    EndpointIff(d.configs, event.source, attrs.source, attrs.common, e);
    EndpointIff(d.configs, event.destination, attrs.destination, attrs.common, e);
    if IsEntity(d.configs, event.source, attrs.source, attrs.common, "", e)
       && NotOverridden(d.configs[event.source], attrs.source) {
      UnprefixedEndIsDetected(d, attrs, events, event.source, attrs.source);
    } else {
      UnprefixedEndIsDetected(d, attrs, events, event.destination, attrs.destination);
    }
    InferredProperly(d, rs, events, Detected(d, attrs, events));
  }

  lemma {:induction false} DetectedKeyed(d: Detector, attrs: Attributes, events: seq<EntityEvent>)
    ensures var m := Detected(d, attrs, events); forall h :: h in m ==> EntityKey(d.hash, m[h]) == Some(h)
  {
    if events != [] {
      DetectedKeyed(d, attrs, events[..|events| - 1]);
    }
  }

  /** collectEvents: entities as detected, relationships, and only those ends
      of relationships that were not detected and whose type's event fired. */
  method CollectEvents(
      d: Detector, attrs: Attributes, events: seq<EntityEvent>, relationshipEvents: seq<RelationshipEvent>)
    returns (
      detected: map<string, Entity>, relationships: seq<Relationship>, inferred: seq<Entity>,
      ghost from: seq<nat>, ghost parts: seq<seq<Entity>>)
    ensures detected == Detected(d, attrs, events)
    ensures forall key :: EntryByLast(d, attrs, events, detected, key)
    ensures forall h :: h in detected ==> EntityKey(d.hash, detected[h]) == Some(h)
    ensures MadeFrom(d, attrs, relationshipEvents, relationships, from)
    ensures inferred == InferredFromAll(d, relationships, events, detected)
    ensures AllInferred(d, relationships, events, detected, inferred, parts)
    ensures forall e :: e in inferred ==> ProperlyInferred(d, e, relationships, events, detected)
    ensures WellConfigured(d.configs) ==> forall event, e :: UnprefixedEnd(d, attrs, events, event, e) ==>
              && (EntityKey(d.hash, e).Some? ==> EntityKey(d.hash, e).value in detected)
              && (forall i :: i in inferred ==> EntityKey(d.hash, i) != EntityKey(d.hash, e))
  {
    detected := GetEntityEvents(d, attrs, events);
    relationships, from := GetRelationshipEvents(d, attrs, relationshipEvents);
    inferred := ValidateEntityEvents(d, events, detected, relationships);
    DetectedKeyed(d, attrs, events);
    InferredProperly(d, relationships, events, detected);
    parts := InferredExactly(d, relationships, events, detected);
    forall event, e | WellConfigured(d.configs) && UnprefixedEnd(d, attrs, events, event, e)
      ensures EntityKey(d.hash, e).Some? ==> EntityKey(d.hash, e).value in detected
      ensures forall i :: i in inferred ==> EntityKey(d.hash, i) != EntityKey(d.hash, e)
    {
      UnprefixedEndIsSuppressed(d, attrs, events, relationships, event, e);
    }
  }
}
