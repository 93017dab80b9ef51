/**
 * The coordinate codec: a grid position (x, y) with both coordinates in
 * [MIN_VALUE, MAX_VALUE] is packed into one integer key with a row stride of
 * SHIFT, the width of that range.  Only integer inputs are modelled, so the
 * rounding the source applies to its inputs is the identity here.
 */
module FlatGridVector {

  const MIN_VALUE: int := -2
  const MAX_VALUE: int := 29
  const SHIFT: int := MAX_VALUE - MIN_VALUE + 1

  /** A flat key: the packed form of a grid position. */
  type FlatKey = int

  /** A grid position (the host's `Vector`, restricted to integer coordinates). */
  datatype Vector = Vector(x: int, y: int)

  /** Both coordinates lie in [MIN_VALUE, MAX_VALUE], the domain of the codec. */
  predicate InDomain(v: Vector) {
    MIN_VALUE <= v.x <= MAX_VALUE && MIN_VALUE <= v.y <= MAX_VALUE
  }

  function FlattenVector(v: Vector): (k: FlatKey)
    ensures InDomain(v) ==> 0 <= k < SHIFT * SHIFT
  {
    (v.x - MIN_VALUE) + (v.y - MIN_VALUE) * SHIFT
  }

  /** The inverse of FlattenVector; `/` is floor division for the positive stride. */
  function ExpandVector(k: FlatKey): (v: Vector)
    ensures FlattenVector(v) == k
    ensures 0 <= k < SHIFT * SHIFT ==> InDomain(v)
  {
    var y := k / SHIFT;
    var x := k - y * SHIFT;
    Vector(x + MIN_VALUE, y + MIN_VALUE)
  }

  /** Moves a key by (dx, dy) without decoding it: the key of the shifted position. */
  function ShiftFlat(k: FlatKey, dx: int, dy: int): (r: FlatKey)
    ensures r == FlattenVector(Vector(ExpandVector(k).x + dx, ExpandVector(k).y + dy))
  {
    k + dx + dy * SHIFT
  }

  lemma ShiftIsDomainWidth()
    ensures SHIFT == 32 && SHIFT == MAX_VALUE - MIN_VALUE + 1
  {
  }

  /** Decoding an encoded in-domain position gives the position back. */
  lemma ExpandFlatten(v: Vector)
    requires InDomain(v)
    ensures ExpandVector(FlattenVector(v)) == v
  {
    var k := FlattenVector(v);
    assert k == (v.x + 2) + (v.y + 2) * 32;
    assert k / 32 == v.y + 2;
  }

  /** Encoding a decoded key gives the key back, for every integer key. */
  lemma FlattenExpand(k: FlatKey)
    ensures FlattenVector(ExpandVector(k)) == k
  {
  }

  /** The codec maps the domain one-to-one onto [0, SHIFT * SHIFT). */
  lemma FlattenBijective(a: Vector, b: Vector, k: FlatKey)
    requires InDomain(a) && InDomain(b)
    ensures FlattenVector(a) == FlattenVector(b) ==> a == b
    ensures 0 <= FlattenVector(a) < 1024
    ensures 0 <= k < 1024 ==> InDomain(ExpandVector(k)) && FlattenVector(ExpandVector(k)) == k
  {
    ExpandFlatten(a);
    ExpandFlatten(b);
  }

  /** Distinct keys decode to distinct positions. */
  lemma ExpandInjective(k1: FlatKey, k2: FlatKey)
    ensures ExpandVector(k1) == ExpandVector(k2) ==> k1 == k2
  {
    FlattenExpand(k1);
    FlattenExpand(k2);
  }

  /** Key arithmetic agrees with coordinate arithmetic. */
  lemma ShiftFlattenLinear(v: Vector, dx: int, dy: int)
    ensures ShiftFlat(FlattenVector(v), dx, dy) == FlattenVector(Vector(v.x + dx, v.y + dy))
  {
  }

  lemma ShiftIdentityAndCompose(k: FlatKey, a: int, b: int, c: int, d: int)
    ensures ShiftFlat(k, 0, 0) == k
    ensures ShiftFlat(ShiftFlat(k, a, b), c, d) == ShiftFlat(k, a + c, b + d)
  {
  }

  /** Walking right off the last column lands on the first column of the next row. */
  lemma ShiftWrapsAtEdge(y: int)
    ensures ExpandVector(ShiftFlat(FlattenVector(Vector(MAX_VALUE, y)), 1, 0)) == Vector(MIN_VALUE, y + 1)
  {
    var k := ShiftFlat(FlattenVector(Vector(MAX_VALUE, y)), 1, 0);
    assert k == (y + 3) * 32;
    assert k / 32 == y + 3;
  }
}
