/** Splitting resource attributes by the source and destination prefixes. */
module AttributeSplit {
  type AttributesMap = map<string, string>

  datatype Attributes = Attributes(source: AttributesMap, destination: AttributesMap, common: AttributesMap)

  datatype Bucket = Source | Destination | Common

  datatype Prefixes = Prefixes(source: string, destination: string)

  /** A key with both prefixes belongs to the source. */
  function BucketOf(k: string, p: Prefixes): Bucket {
    if p.source != "" && p.source <= k then Source
    else if p.destination != "" && p.destination <= k then Destination
    else Common
  }

  function PrefixOf(b: Bucket, p: Prefixes): string {
    match b
    case Source => p.source
    case Destination => p.destination
    case Common => ""
  }

  /** `held` is the part of `whole` that belongs to the bucket, without the prefix. */
  ghost predicate Holds(held: AttributesMap, whole: AttributesMap, b: Bucket, p: Prefixes) {
    var prefix := PrefixOf(b, p);
    && (forall q :: q in whole && BucketOf(q, p) == b ==> q[|prefix|..] in held && held[q[|prefix|..]] == whole[q])
    && (forall q :: prefix <= q && q[|prefix|..] in held ==> q in whole && BucketOf(q, p) == b)
  }

  ghost predicate IsSplit(attrs: Attributes, whole: AttributesMap, p: Prefixes) {
    Holds(attrs.source, whole, Source, p) && Holds(attrs.destination, whole, Destination, p) &&
    Holds(attrs.common, whole, Common, p)
  }

  lemma SameRest(prefix: string, q: string, k: string)
    requires prefix <= q && prefix <= k && q[|prefix|..] == k[|prefix|..]
    ensures q == k
  {
    assert q == prefix + q[|prefix|..] && k == prefix + k[|prefix|..];
  }

  lemma HoldsOneMore(held: AttributesMap, whole: AttributesMap, b: Bucket, p: Prefixes, k: string, v: string)
    requires Holds(held, whole, b, p) && k !in whole
    ensures BucketOf(k, p) != b ==> Holds(held, whole[k := v], b, p)
    ensures BucketOf(k, p) == b ==>
      var rest := k[|PrefixOf(b, p)|..]; rest !in held && Holds(held[rest := v], whole[k := v], b, p)
  {
    if BucketOf(k, p) == b {
      var prefix := PrefixOf(b, p);
      forall q | prefix <= q && q[|prefix|..] == k[|prefix|..] ensures q == k {
        SameRest(prefix, q, k);
      }
    }
  }

  function Put(attrs: Attributes, p: Prefixes, k: string, v: string): Attributes {
    match BucketOf(k, p)
    case Source => attrs.(source := attrs.source[k[|p.source|..] := v])
    case Destination => attrs.(destination := attrs.destination[k[|p.destination|..] := v])
    case Common => attrs.(common := attrs.common[k := v])
  }

  function Size(attrs: Attributes): nat {
    |attrs.source| + |attrs.destination| + |attrs.common|
  }

  lemma SplitOneMore(attrs: Attributes, whole: AttributesMap, p: Prefixes, k: string, v: string)
    requires IsSplit(attrs, whole, p) && k !in whole
    ensures IsSplit(Put(attrs, p, k, v), whole[k := v], p)
    ensures Size(Put(attrs, p, k, v)) == Size(attrs) + 1
  {
    HoldsOneMore(attrs.source, whole, Source, p, k, v);
    HoldsOneMore(attrs.destination, whole, Destination, p, k, v);
    HoldsOneMore(attrs.common, whole, Common, p, k, v);
    assert k[0..] == k;
  }

  function Except(m: AttributesMap, keys: set<string>): AttributesMap {
    map k | k in m && k !in keys :: m[k]
  }

  lemma ExceptOneLess(m: AttributesMap, keys: set<string>, k: string)
    requires k in keys && k in m
    ensures Except(m, keys - {k}) == Except(m, keys)[k := m[k]]
    ensures k !in Except(m, keys) && |Except(m, keys - {k})| == |Except(m, keys)| + 1
  {
  }

  lemma ExceptAll(m: AttributesMap)
    ensures Except(m, m.Keys) == map[]
  {
  }

  lemma ExceptNone(m: AttributesMap)
    ensures Except(m, {}) == m
  {
  }

  /** Attributes are taken in any order; the three buckets hold all of them once. */
  method IdentifyAttributes(resource: AttributesMap, p: Prefixes) returns (attrs: Attributes)
    ensures IsSplit(attrs, resource, p)
    ensures forall q :: q in resource ==>
      if p.source != "" && p.source <= q
      then q[|p.source|..] in attrs.source && attrs.source[q[|p.source|..]] == resource[q]
      else if p.destination != "" && p.destination <= q
      then q[|p.destination|..] in attrs.destination && attrs.destination[q[|p.destination|..]] == resource[q]
      else q in attrs.common && attrs.common[q] == resource[q]
    ensures Size(attrs) == |resource|
    ensures Rejoin(attrs, p) == resource
  {
    attrs := Attributes(map[], map[], map[]);
    ExceptAll(resource);
    var todo := resource.Keys;
    while todo != {}
      invariant todo <= resource.Keys
      invariant IsSplit(attrs, Except(resource, todo), p)
      invariant Size(attrs) == |Except(resource, todo)|
      decreases todo
    {
      var k :| k in todo;
      var v := resource[k];
      ExceptOneLess(resource, todo, k);
      SplitOneMore(attrs, Except(resource, todo), p, k, v);
      ghost var put := Put(attrs, p, k, v);
      todo := todo - {k};
      if p.source != "" && p.source <= k {
        attrs := attrs.(source := attrs.source[k[|p.source|..] := v]);
      } else if p.destination != "" && p.destination <= k {
        attrs := attrs.(destination := attrs.destination[k[|p.destination|..] := v]);
      } else {
        attrs := attrs.(common := attrs.common[k := v]);
      }
      assert attrs == put;
    }
    ExceptNone(resource);
    SplitIsLossless(attrs, resource, p);
    assert forall q: string :: q[0..] == q;
  }

  /** A bucket with its prefix put back. */
  function Prefixed(prefix: string, held: AttributesMap): AttributesMap {
    map q | q in (set k | k in held :: prefix + k) :: held[q[|prefix|..]]
  }

  function Rejoin(attrs: Attributes, p: Prefixes): AttributesMap {
    attrs.common + Prefixed(p.destination, attrs.destination) + Prefixed(p.source, attrs.source)
  }

  /** The attributes that belong to a bucket. */
  function Part(whole: AttributesMap, b: Bucket, p: Prefixes): AttributesMap {
    map q | q in whole && BucketOf(q, p) == b :: whole[q]
  }

  lemma PrefixedIsPart(held: AttributesMap, whole: AttributesMap, b: Bucket, p: Prefixes)
    requires Holds(held, whole, b, p)
    ensures Prefixed(PrefixOf(b, p), held) == Part(whole, b, p)
  {
    var prefix := PrefixOf(b, p);
    var back := Prefixed(prefix, held);
    forall q | q in whole && BucketOf(q, p) == b ensures q in back && back[q] == whole[q] {
      assert prefix + q[|prefix|..] == q;
    }
    forall q | q in back ensures q in whole && BucketOf(q, p) == b {
      var k :| k in held && q == prefix + k;
      assert q[|prefix|..] == k;
    }
  }

  lemma CommonIsPart(held: AttributesMap, whole: AttributesMap, p: Prefixes)
    requires Holds(held, whole, Common, p)
    ensures held == Part(whole, Common, p)
  {
    assert forall q: string :: q[0..] == q;
  }

  lemma PartsRejoin(whole: AttributesMap, p: Prefixes)
    ensures Part(whole, Common, p) + Part(whole, Destination, p) + Part(whole, Source, p) == whole
  {
  }

  /** Putting the prefixes back rebuilds exactly the original attributes. */
  lemma SplitIsLossless(attrs: Attributes, whole: AttributesMap, p: Prefixes)
    requires IsSplit(attrs, whole, p)
    ensures Rejoin(attrs, p) == whole
  {
    PrefixedIsPart(attrs.source, whole, Source, p);
    PrefixedIsPart(attrs.destination, whole, Destination, p);
    CommonIsPart(attrs.common, whole, p);
    PartsRejoin(whole, p);
  }
}
