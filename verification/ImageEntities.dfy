/** The entity and relation records generated for the containers of a pod. */
module ImageEntities {
  import Digest

  datatype Container = Container(imageId: string, imageName: string, tag: string)

  datatype PodMetadata = PodMetadata(name: string, namespace: string)

  datatype EntityId =
    | ContainerId(pod: string, namespace: string, container: string, clusterUid: string)
    | ImageId(digest: string)
    | ClusterImageId(clusterUid: string, digest: string, name: string)

  datatype RelationKind = RelatesTo | UsesImage

  /** What a record is about, apart from its descriptive attributes. */
  datatype Identity = EntityOf(id: EntityId) | RelationOf(kind: RelationKind, source: EntityId, destination: EntityId)

  datatype Record = Record(identity: Identity, tag: string)

  /** The image of a container once its ID is normalised. */
  datatype Image = Image(hasId: bool, digest: string, hasDigest: bool, name: string, tag: string)

  /** Images by container name. */
  type Images = map<string, Image>

  function ReadImage(c: Container): Image {
    var digest := Digest.Normalise(c.imageId);
    Image(c.imageId != "", digest, c.imageId != "" && digest != "" && Digest.ValidDigest(digest), c.imageName, c.tag)
  }

  function ReadImages(containers: map<string, Container>): Images {
    map k | k in containers :: ReadImage(containers[k])
  }

  /** The digest is empty only for want of an image ID, and only an image with an ID has a valid one. */
  ghost predicate WellRead(images: Images) {
    forall k :: k in images ==>
      (images[k].digest != "" <==> images[k].hasId) && (images[k].hasDigest ==> images[k].hasId)
  }

  lemma ReadImagesWellRead(containers: map<string, Container>)
    ensures WellRead(ReadImages(containers))
  {
    forall k | k in containers && containers[k].imageId != "" ensures Digest.Normalise(containers[k].imageId) != "" {
      Digest.NormaliseHasColon(containers[k].imageId);
    }
  }

  function ClusterImage(c: Image, uid: string): EntityId {
    ClusterImageId(uid, c.digest, c.name)
  }

  // ----- What each container gives rise to -----

  function IdentitiesOf(candidates: map<string, Record>): set<Identity> {
    set k | k in candidates :: candidates[k].identity
  }

  function ContainerRecords(images: Images, md: PodMetadata, uid: string): map<string, Record> {
    map k | k in images :: Record(EntityOf(ContainerId(md.name, md.namespace, k, uid)), "")
  }

  function ImageRecords(images: Images): map<string, Record> {
    map k | k in images && images[k].hasDigest :: Record(EntityOf(ImageId(images[k].digest)), "")
  }

  function RelatesRecords(images: Images, uid: string): map<string, Record> {
    map k | uid != "" && k in images && images[k].hasDigest ::
      Record(RelationOf(RelatesTo, ImageId(images[k].digest), ClusterImage(images[k], uid)), "")
  }

  function ClusterImageRecords(images: Images, uid: string): map<string, Record> {
    map k | uid != "" && k in images && images[k].hasId :: Record(EntityOf(ClusterImage(images[k], uid)), images[k].tag)
  }

  function UsesRecords(images: Images, md: PodMetadata, uid: string): map<string, Record> {
    map k | uid != "" && k in images ::
      Record(
        RelationOf(UsesImage, ContainerId(md.name, md.namespace, k, uid), ClusterImage(images[k], uid)),
        images[k].tag)
  }

  // ----- Emitting in any order of the images -----

  /** `records` has one record for each identity in `ids` and no other. */
  ghost predicate Lists(records: seq<Record>, ids: set<Identity>) {
    && (forall i, j :: 0 <= i < j < |records| ==> records[i].identity != records[j].identity)
    && (forall i :: 0 <= i < |records| ==> records[i].identity in ids)
    && (forall id :: id in ids ==> exists i :: 0 <= i < |records| && records[i].identity == id)
  }

  lemma ListsJoin(a: seq<Record>, ids: set<Identity>, b: seq<Record>, more: set<Identity>)
    requires Lists(a, ids) && Lists(b, more) && ids !! more
    ensures Lists(a + b, ids + more)
  {
    var all := a + b;
    forall id | id in ids + more ensures exists i :: 0 <= i < |all| && all[i].identity == id {
      if id in ids {
        var i :| 0 <= i < |a| && a[i].identity == id;
        assert all[i].identity == id;
      } else {
        var i :| 0 <= i < |b| && b[i].identity == id;
        assert all[|a| + i].identity == id;
      }
    }
  }

  lemma ListsJoinFive(
      a: seq<Record>, idsA: set<Identity>, b: seq<Record>, idsB: set<Identity>, c: seq<Record>, idsC: set<Identity>,
      d: seq<Record>, idsD: set<Identity>, e: seq<Record>, idsE: set<Identity>)
    requires Lists(a, idsA) && Lists(b, idsB) && Lists(c, idsC) && Lists(d, idsD) && Lists(e, idsE)
    requires idsA !! idsB !! idsC !! idsD !! idsE
    ensures Lists(a + b + c + d + e, idsA + idsB + idsC + idsD + idsE)
  {
    ListsJoin(a, idsA, b, idsB);
    ListsJoin(a + b, idsA + idsB, c, idsC);
    ListsJoin(a + b + c, idsA + idsB + idsC, d, idsD);
    ListsJoin(a + b + c + d, idsA + idsB + idsC + idsD, e, idsE);
  }

  lemma ListsOneMore(records: seq<Record>, ids: set<Identity>, r: Record)
    requires Lists(records, ids) && r.identity !in ids
    ensures Lists(records + [r], ids + {r.identity})
  {
    assert [r][0].identity == r.identity;
    ListsJoin(records, ids, [r], {r.identity});
  }

  /** The loop that skips an identity already seen. */
  method EmitOnce(candidates: map<string, Record>) returns (records: seq<Record>)
    ensures Lists(records, IdentitiesOf(candidates))
    ensures forall r :: r in records ==> r in candidates.Values
  {
    records := [];
    var seen: set<Identity> := {};
    var todo := candidates.Keys;
    while todo != {}
      invariant todo <= candidates.Keys
      invariant seen == set k | k in candidates && k !in todo :: candidates[k].identity
      invariant Lists(records, seen)
      invariant forall r :: r in records ==> r in candidates.Values
      decreases todo
    {
      var name :| name in todo;
      todo := todo - {name};
      var record := candidates[name];
      if record.identity !in seen {
        ListsOneMore(records, seen, record);
        records := records + [record];
        seen := seen + {record.identity};
      }
    }
    assert seen == IdentitiesOf(candidates);
  }

  /** The loop that emits one record for every container. */
  method EmitEach(candidates: map<string, Record>) returns (records: seq<Record>)
    requires forall j, k :: j in candidates && k in candidates && j != k ==>
               candidates[j].identity != candidates[k].identity
    ensures Lists(records, IdentitiesOf(candidates))
    ensures forall r :: r in records ==> r in candidates.Values
  {
    records := [];
    ghost var seen: set<Identity> := {};
    var todo := candidates.Keys;
    while todo != {}
      invariant todo <= candidates.Keys
      invariant seen == set k | k in candidates && k !in todo :: candidates[k].identity
      invariant Lists(records, seen)
      invariant forall r :: r in records ==> r in candidates.Values
      decreases todo
    {
      var name :| name in todo;
      todo := todo - {name};
      ListsOneMore(records, seen, candidates[name]);
      records := records + [candidates[name]];
      seen := seen + {candidates[name].identity};
    }
    assert seen == IdentitiesOf(candidates);
  }

  // ----- Everything for one pod -----

  function PodIdentities(images: Images, md: PodMetadata, uid: string): set<Identity> {
    IdentitiesOf(ContainerRecords(images, md, uid)) + IdentitiesOf(ImageRecords(images)) +
    IdentitiesOf(RelatesRecords(images, uid)) + IdentitiesOf(ClusterImageRecords(images, uid)) +
    IdentitiesOf(UsesRecords(images, md, uid))
  }

  ghost predicate Emitted(records: seq<Record>, id: Identity) {
    exists i :: 0 <= i < |records| && records[i].identity == id
  }

  /** The five transformations name five different sorts of things. */
  lemma SortsApart(images: Images, md: PodMetadata, uid: string)
    ensures forall id :: id in IdentitiesOf(ContainerRecords(images, md, uid)) ==> id.EntityOf? && id.id.ContainerId?
    ensures forall id :: id in IdentitiesOf(ImageRecords(images)) ==> id.EntityOf? && id.id.ImageId?
    ensures forall id :: id in IdentitiesOf(RelatesRecords(images, uid)) ==> id.RelationOf? && id.kind.RelatesTo?
    ensures forall id :: id in IdentitiesOf(ClusterImageRecords(images, uid)) ==> id.EntityOf? && id.id.ClusterImageId?
    ensures forall id :: id in IdentitiesOf(UsesRecords(images, md, uid)) ==> id.RelationOf? && id.kind.UsesImage?
  {
  }

  lemma SortsDisjoint(images: Images, md: PodMetadata, uid: string)
    ensures IdentitiesOf(ContainerRecords(images, md, uid)) !! IdentitiesOf(ImageRecords(images)) !!
            IdentitiesOf(RelatesRecords(images, uid)) !! IdentitiesOf(ClusterImageRecords(images, uid)) !!
            IdentitiesOf(UsesRecords(images, md, uid))
  {
    SortsApart(images, md, uid);
  }

  // ----- The same told from the containers -----

  /** One container gives a record: the container itself; the image and, with a
      cluster UID, its relation to the cluster's image if the image ID has a
      valid digest; with a cluster UID the cluster's image if there is an image
      ID at all, and the use of it in any case. */
  ghost predicate Gives(containers: map<string, Container>, md: PodMetadata, uid: string, k: string, r: Record) {
    && k in containers
    && var c := containers[k];
    var digest := Digest.Normalise(c.imageId);
    var itself, image := ContainerId(md.name, md.namespace, k, uid), ClusterImageId(uid, digest, c.imageName);
    var valid := c.imageId != "" && Digest.ValidDigest(digest);
    || r == Record(EntityOf(itself), "")
    || (valid && r == Record(EntityOf(ImageId(digest)), ""))
    || (uid != "" && valid && r == Record(RelationOf(RelatesTo, ImageId(digest), image), ""))
    || (uid != "" && c.imageId != "" && r == Record(EntityOf(image), c.tag))
    || (uid != "" && r == Record(RelationOf(UsesImage, itself, image), c.tag))
  }

  lemma GivesIff(containers: map<string, Container>, md: PodMetadata, uid: string, k: string, r: Record)
    ensures var images := ReadImages(containers);
      Gives(containers, md, uid, k, r) <==>
      || Has(ContainerRecords(images, md, uid), k, r) || Has(ImageRecords(images), k, r)
      || Has(RelatesRecords(images, uid), k, r) || Has(ClusterImageRecords(images, uid), k, r)
      || Has(UsesRecords(images, md, uid), k, r)
  {
    if k in containers {
      assert ReadImages(containers)[k] == ReadImage(containers[k]);
    }
  }

  predicate Has(candidates: map<string, Record>, k: string, r: Record) {
    k in candidates && candidates[k] == r
  }

  /** What is given is among the identities. */
  lemma GivenIsIdentity(containers: map<string, Container>, md: PodMetadata, uid: string, k: string, r: Record)
    requires Gives(containers, md, uid, k, r)
    ensures r.identity in PodIdentities(ReadImages(containers), md, uid)
  {
    GivesIff(containers, md, uid, k, r);
  }

  lemma ValuesGiven(candidates: map<string, Record>, r: Record)
    requires r in candidates.Values
    ensures exists k :: Has(candidates, k, r)
  {
    var k :| k in candidates && candidates[k] == r;
    assert Has(candidates, k, r);
  }

  /** The records of a pod manifest, in the order the transformations run: no
      identity twice, and every RelatesTo record with both its ends beside it. */
  method TransformPod(containers: map<string, Container>, md: PodMetadata, uid: string) returns (records: seq<Record>)
    ensures Lists(records, PodIdentities(ReadImages(containers), md, uid))
    ensures forall r :: r in records ==> exists k :: Gives(containers, md, uid, k, r)
    ensures forall k, r :: Gives(containers, md, uid, k, r) ==> Emitted(records, r.identity)
    ensures forall r :: r in records && r.identity.RelationOf? && r.identity.kind.RelatesTo? ==>
              Emitted(records, EntityOf(r.identity.source)) && Emitted(records, EntityOf(r.identity.destination))
  {
    var images := ReadImages(containers);
    var containerLogs := EmitEach(ContainerRecords(images, md, uid));
    var imageLogs := EmitOnce(ImageRecords(images));
    var relatesLogs := EmitOnce(RelatesRecords(images, uid));
    var clusterImageLogs := EmitOnce(ClusterImageRecords(images, uid));
    var usesLogs := EmitEach(UsesRecords(images, md, uid));
    records := containerLogs + imageLogs + relatesLogs + clusterImageLogs + usesLogs;
    SortsDisjoint(images, md, uid);
    ListsJoinFive(
      containerLogs, IdentitiesOf(ContainerRecords(images, md, uid)), imageLogs, IdentitiesOf(ImageRecords(images)),
      relatesLogs, IdentitiesOf(RelatesRecords(images, uid)),
      clusterImageLogs, IdentitiesOf(ClusterImageRecords(images, uid)),
      usesLogs, IdentitiesOf(UsesRecords(images, md, uid)));
    ReadImagesWellRead(containers);
    RelatesEmitted(records, images, md, uid);
    forall r | r in records ensures exists k :: Gives(containers, md, uid, k, r) {
      RecordGiven(containers, md, uid, r);
    }
    forall k, r | Gives(containers, md, uid, k, r) ensures Emitted(records, r.identity) {
      GivenIsIdentity(containers, md, uid, k, r);
    }
  }

  lemma RecordGiven(containers: map<string, Container>, md: PodMetadata, uid: string, r: Record)
    requires var images := ReadImages(containers);
      || r in ContainerRecords(images, md, uid).Values || r in ImageRecords(images).Values
      || r in RelatesRecords(images, uid).Values || r in ClusterImageRecords(images, uid).Values
      || r in UsesRecords(images, md, uid).Values
    ensures exists k :: Gives(containers, md, uid, k, r)
  {
    var images := ReadImages(containers);
    var candidates :=
      if r in ContainerRecords(images, md, uid).Values then ContainerRecords(images, md, uid)
      else if r in ImageRecords(images).Values then ImageRecords(images)
      else if r in RelatesRecords(images, uid).Values then RelatesRecords(images, uid)
      else if r in ClusterImageRecords(images, uid).Values then ClusterImageRecords(images, uid)
      else UsesRecords(images, md, uid);
    ValuesGiven(candidates, r);
    var k :| Has(candidates, k, r);
    GivesIff(containers, md, uid, k, r);
  }

  lemma RelatesEmitted(records: seq<Record>, images: Images, md: PodMetadata, uid: string)
    requires WellRead(images) && Lists(records, PodIdentities(images, md, uid))
    ensures forall r :: r in records && r.identity.RelationOf? && r.identity.kind.RelatesTo? ==>
              Emitted(records, EntityOf(r.identity.source)) && Emitted(records, EntityOf(r.identity.destination))
  {
    forall r | r in records && r.identity.RelationOf? && r.identity.kind.RelatesTo?
      ensures Emitted(records, EntityOf(r.identity.source)) && Emitted(records, EntityOf(r.identity.destination))
    {
      RelatesResolve(images, md, uid, r.identity);
    }
  }

  /** Both ends of every RelatesTo identity are among the entities of the pod. */
  lemma RelatesResolve(images: Images, md: PodMetadata, uid: string, id: Identity)
    requires WellRead(images)
    requires id in PodIdentities(images, md, uid) && id.RelationOf? && id.kind.RelatesTo?
    ensures EntityOf(id.source) in PodIdentities(images, md, uid)
    ensures EntityOf(id.destination) in PodIdentities(images, md, uid)
  {
    SortsApart(images, md, uid);
    assert id in IdentitiesOf(RelatesRecords(images, uid));
    RelatesEnds(images, uid, id);
  }

  lemma RelatesEnds(images: Images, uid: string, id: Identity)
    requires WellRead(images) && id in IdentitiesOf(RelatesRecords(images, uid)) && id.RelationOf?
    ensures EntityOf(id.source) in IdentitiesOf(ImageRecords(images))
    ensures EntityOf(id.destination) in IdentitiesOf(ClusterImageRecords(images, uid))
  {
    var candidates := RelatesRecords(images, uid);
    var k :| k in candidates && candidates[k].identity == id;
    assert ImageRecords(images)[k].identity == EntityOf(id.source);
    assert ClusterImageRecords(images, uid)[k].identity == EntityOf(id.destination);
  }

  /** The container end of a uses-image record is always emitted; its image end
      exactly when the container has an image ID. */
  lemma UsesResolveIff(containers: map<string, Container>, md: PodMetadata, uid: string, k: string)
    requires uid != "" && k in containers
    ensures var images := ReadImages(containers); var all := PodIdentities(images, md, uid);
      var id := RelationOf(UsesImage, ContainerId(md.name, md.namespace, k, uid), ClusterImage(images[k], uid));
      && id in all && EntityOf(id.source) in all
      && (EntityOf(id.destination) in all <==> containers[k].imageId != "")
  {
    var images := ReadImages(containers);
    ReadImagesWellRead(containers);
    UsesResolve(images, md, uid, k);
  }

  lemma UsesResolve(images: Images, md: PodMetadata, uid: string, k: string)
    requires WellRead(images) && uid != "" && k in images
    ensures var all := PodIdentities(images, md, uid);
      var id := RelationOf(UsesImage, ContainerId(md.name, md.namespace, k, uid), ClusterImage(images[k], uid));
      && id in all && EntityOf(id.source) in all
      && (EntityOf(id.destination) in all <==> images[k].hasId)
  {
    SortsApart(images, md, uid);
    var id := UsesRecords(images, md, uid)[k].identity;
    assert id in IdentitiesOf(UsesRecords(images, md, uid));
    assert ContainerRecords(images, md, uid)[k].identity == EntityOf(id.source);
    var emitted := ClusterImageRecords(images, uid);
    if images[k].hasId {
      assert emitted[k].identity == EntityOf(id.destination);
    } else {
      assert forall j :: j in emitted ==> images[j].digest != images[k].digest;
      assert EntityOf(id.destination) !in IdentitiesOf(emitted);
    }
  }
}
