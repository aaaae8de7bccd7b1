/** Cache keys of entities and relationships in the entity connector. */
module KeyBuilder {
  import opened Outcomes
  import Text

  /** What identifies an entity: its type and its ID attributes. */
  datatype Entity = Entity(kind: string, ids: map<string, string>)

  /** The 64-bit hash of an encoded entity; None when it cannot be encoded. */
  type EntityHash = Entity -> Option<nat>

  function HexDigit(d: nat): char
    requires d < 16
  {
    if d < 10 then '0' + d as char else 'a' + (d - 10) as char
  }

  lemma HexDigitIs(d: nat)
    requires d < 16
    ensures HexDigit(d) == "0123456789abcdef"[d]
  {
    assert d < 8 ==> HexDigit(d) == "01234567"[d];
  }

  /** Lower-case hexadecimal without leading zeros. */
  function Hex(n: nat): string {
    if n < 16 then [HexDigit(n)] else Hex(n / 16) + [HexDigit(n % 16)]
  }

  lemma {:induction false} HexShape(n: nat)
    ensures Hex(n) != [] && ':' !in Hex(n)
  {
    if n >= 16 {
      HexShape(n / 16);
    }
  }

  /** Hex writes the last digit last and the rest as a shorter Hex. */
  lemma HexEnds(n: nat)
    ensures Hex(n) != []
    ensures Hex(n)[|Hex(n)| - 1] == HexDigit(n % 16)
    ensures Hex(n)[..|Hex(n)| - 1] == if n < 16 then [] else Hex(n / 16)
  {
  }

  lemma {:induction false} HexInjective(a: nat, b: nat)
    requires Hex(a) == Hex(b)
    ensures a == b
  {
    HexEnds(a);
    HexEnds(b);
    assert a % 16 == b % 16;
    HexShape(a / 16);
    HexShape(b / 16);
    if a >= 16 && b >= 16 {
      HexInjective(a / 16, b / 16);
    }
  }

  function BuildEntityKey(hash: EntityHash, e: Entity): Option<string> {
    match hash(e)
    case None => None
    case Some(n) => Some(Hex(n))
  }

  function BuildRelationshipKey(kind: string, sourceHash: string, destHash: string): Option<string> {
    if kind == "" || sourceHash == "" || destHash == "" then None
    else Some(kind + ":" + sourceHash + ":" + destHash)
  }

  /** The hash tells the given entities apart. */
  ghost predicate CollisionFreeOn(hash: EntityHash, entities: set<Entity>) {
    forall a, b :: a in entities && b in entities && hash(a).Some? && hash(a) == hash(b) ==> a == b
  }

  /** Entity keys are as good as the hash: two entities share a key exactly
      when they share the hash. */
  lemma EntityKeyIdentifies(hash: EntityHash, a: Entity, b: Entity)
    ensures BuildEntityKey(hash, a) == BuildEntityKey(hash, b) <==> hash(a) == hash(b)
  {
    if hash(a).Some? && hash(b).Some? && Hex(hash(a).value) == Hex(hash(b).value) {
      HexInjective(hash(a).value, hash(b).value);
    }
  }

  /** A relationship of any type but the empty one has a key. */
  lemma RelationshipKeyed(kind: string, source: nat, dest: nat)
    ensures BuildRelationshipKey(kind, Hex(source), Hex(dest)) ==
            if kind == "" then None else Some(kind + ":" + Hex(source) + ":" + Hex(dest))
  {
    HexShape(source);
    HexShape(dest);
  }

  /** Distinct triples never share a key, even when the type holds colons. */
  lemma RelationshipKeyIdentifies(
      kind: string, source: nat, dest: nat, kind': string, source': nat, dest': nat)
    requires BuildRelationshipKey(kind, Hex(source), Hex(dest)).Some?
    requires BuildRelationshipKey(kind, Hex(source), Hex(dest)) ==
             BuildRelationshipKey(kind', Hex(source'), Hex(dest'))
    ensures kind == kind' && source == source' && dest == dest'
  {
    HexShape(source); HexShape(dest); HexShape(source'); HexShape(dest');
    var left, left' := kind + ":" + Hex(source), kind' + ":" + Hex(source');
    assert left + ":" + Hex(dest) == left' + ":" + Hex(dest');
    Text.CutAtLast(left, Hex(dest), left', Hex(dest'), ':');
    Text.CutAtLast(kind, Hex(source), kind', Hex(source'), ':');
    HexInjective(source, source');
    HexInjective(dest, dest');
  }
}
