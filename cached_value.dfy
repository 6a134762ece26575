/** `DistributedCache.Cached`, the reply to a read: the requested key and the value found
    for it, with a null-aware structural `equals` and the matching 31-based `hashCode`.
    The stored value is an arbitrary Java object of type `V`; its own `equals` and
    `hashCode` are parameters (`eq`, `hash`). */
module CachedValue {
  import opened JavaLang
  import JavaString

  const PRIME: Int32 := 31

  /** A `Cached` object: both fields may be null. */
  datatype Cached<V> = Cached(key: Nullable<JavaString.JString>, value: Nullable<Optional<V>>)

  /** The argument of `equals(Object)`: null, a `Cached`, or an object of another class
      (including a subclass of `Cached`, which `getClass()` tells apart). */
  datatype Obj<V> = NullObj | CachedObj(c: Cached<V>) | OtherClass

  /** `Optional.equals` between two non-null optionals: both empty, or both present with
      values that are the same object or `equals` each other. */
  predicate OptionalEquals<V(==)>(a: Optional<V>, b: Optional<V>, eq: (V, V) -> bool)
  {
    match a
    case Empty => b.Empty?
    case Of(x) => b.Of? && (x == b.content || eq(x, b.content))
  }

  /** The key comparison of `equals`: both null, or `String.equals`. */
  predicate KeyEquals(a: Nullable<JavaString.JString>, b: Nullable<JavaString.JString>)
  {
    match a
    case Null => b.Null?
    case Ref(k) => b.Ref? && k == b.get
  }

  /** The value comparison of `equals`: both null, or `Optional.equals`. */
  predicate ValueEquals<V(==)>(a: Nullable<Optional<V>>, b: Nullable<Optional<V>>, eq: (V, V) -> bool)
  {
    match a
    case Null => b.Null?
    case Ref(o) => b.Ref? && OptionalEquals(o, b.get, eq)
  }

  /** `Cached.equals(obj)`: every object equals itself, whatever the stored values'
      `equals` does; null and objects of another class are never equal; two `Cached`
      objects are equal exactly when their keys and their values are equal, null-safely. */
  predicate Equals<V(==)>(self: Cached<V>, obj: Obj<V>, eq: (V, V) -> bool)
    ensures obj == CachedObj(self) ==> Equals(self, obj, eq)
    ensures obj.NullObj? || obj.OtherClass? ==> !Equals(self, obj, eq)
    ensures obj.CachedObj? ==>
      (Equals(self, obj, eq) <==> KeyEquals(self.key, obj.c.key) && ValueEquals(self.value, obj.c.value, eq))
  {
    if obj == CachedObj(self) then true
    else match obj
      case NullObj => false
      case OtherClass => false
      case CachedObj(other) => KeyEquals(self.key, other.key) && ValueEquals(self.value, other.value, eq)
  }

  /** `Optional.hashCode()`: the value's hash, or 0 when empty. */
  function OptionalHashCode<V>(o: Optional<V>, hash: V -> Int32): Int32
  {
    match o
    case Empty => 0
    case Of(x) => hash(x)
  }

  /** The hash a field contributes: 0 for null. */
  function KeyHash(k: Nullable<JavaString.JString>): Int32
  {
    if k.Null? then 0 else JavaString.HashCode(k.get)
  }

  function ValueHash<V>(v: Nullable<Optional<V>>, hash: V -> Int32): Int32
  {
    if v.Null? then 0 else OptionalHashCode(v.get, hash)
  }

  /** `Cached.hashCode()`: `result` starts at 1 and absorbs each field as
      `result = prime * result + fieldHash` in `int` arithmetic. The result is
      31 * (31 + key hash) + value hash, reduced to 32 bits once. */
  function HashCode<V>(self: Cached<V>, hash: V -> Int32): (h: Int32)
    ensures h == Wrap(31 * (31 + KeyHash(self.key)) + ValueHash(self.value, hash))
  {
    var result: Int32 := 1;
    var result := Add(Mul(PRIME, result), KeyHash(self.key));
    var result := Add(Mul(PRIME, result), ValueHash(self.value, hash));
    TwoStepsClosedForm(KeyHash(self.key), ValueHash(self.value, hash));
    result
  }

  /** The two accumulation steps of `hashCode`, reduced to one 32-bit reduction. */
  lemma TwoStepsClosedForm(hk: Int32, hv: Int32)
    ensures Add(Mul(PRIME, Add(Mul(PRIME, 1), hk)), hv) == Wrap(31 * (31 + hk as int) + hv)
  {
    var r1 := Add(Mul(PRIME, 1), hk);
    assert Mul(PRIME, 1) == 31;
    assert r1 == Wrap(31 + hk as int);
    assert Add(Mul(PRIME, r1), hv) == Wrap(Wrap(31 * r1 as int) + hv as int);
    WrapCongruent(Wrap(31 * r1 as int) + hv as int, 31 * r1 as int + hv as int);
    WrapInner(31, 31 + hk as int, hv as int);
  }

  /** `equals` is symmetric when the stored values' `equals` is. */
  lemma EqualsSymmetric<V>(a: Cached<V>, b: Cached<V>, eq: (V, V) -> bool)
    requires forall x, y :: eq(x, y) ==> eq(y, x)
    ensures Equals(a, CachedObj(b), eq) ==> Equals(b, CachedObj(a), eq)
  {
  }

  /** `equals` is transitive when the stored values' `equals` is. */
  lemma EqualsTransitive<V>(a: Cached<V>, b: Cached<V>, c: Cached<V>, eq: (V, V) -> bool)
    requires forall x, y, z :: eq(x, y) && eq(y, z) ==> eq(x, z)
    requires Equals(a, CachedObj(b), eq) && Equals(b, CachedObj(c), eq)
    ensures Equals(a, CachedObj(c), eq)
  {
  }

  /** Equal `Cached` objects have equal hashes, given that equal stored values do. */
  lemma EqualsImpliesEqualHashCode<V>(a: Cached<V>, b: Cached<V>, eq: (V, V) -> bool, hash: V -> Int32)
    requires forall x, y :: eq(x, y) ==> hash(x) == hash(y)
    requires Equals(a, CachedObj(b), eq)
    ensures HashCode(a, hash) == HashCode(b, hash)
  {
    assert KeyHash(a.key) == KeyHash(b.key);
    assert ValueHash(a.value, hash) == ValueHash(b.value, hash);
  }
}
