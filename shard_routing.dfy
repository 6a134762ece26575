/** Shard routing of the distributed cache: every cache key is stored in one of the
    replicated maps named "cache-<index>", where the index is
    `Math.abs(key.hashCode()) % 100` in Java `int` arithmetic. */
module ShardRouting {
  import opened JavaLang
  import opened JavaString

  const SHARD_COUNT: int := 100

  /** The index that sits after the prefix when the key's hash is `Integer.MIN_VALUE`. */
  const MIN_HASH_INDEX: int := -48

  /** "cache-" */
  const PREFIX: JString := ['c' as int, 'a' as int, 'c' as int, 'h' as int, 'e' as int, MINUS]

  /** `Math.abs(h) % 100` for a hash `h`. */
  function ShardIndex(h: Int32): (i: int)
    ensures h != MIN_VALUE ==> 0 <= i < SHARD_COUNT
    ensures h == MIN_VALUE ==> i == MIN_HASH_INDEX
  {
    Rem(Abs(h), SHARD_COUNT)
  }

  /** The name of the replicated map for an index: "cache-" followed by the index's
      decimal text, from which the index can be read back. */
  function ShardName(i: int): (name: JString)
    ensures |name| > |PREFIX| && name[..|PREFIX|] == PREFIX
    ensures ParseDecimal(name[|PREFIX|..]) == i
  {
    var name := PREFIX + Decimal(i);
    assert name[|PREFIX|..] == Decimal(i);
    name
  }

  /** Names that `DataKey` produces: "cache-0" .. "cache-99" and "cache--48". */
  ghost predicate Reachable(name: JString)
  {
    name == ShardName(MIN_HASH_INDEX) || exists i :: 0 <= i < SHARD_COUNT && name == ShardName(i)
  }

  /** `dataKey(entryKey)`: the name of the replicated map that holds `entryKey`. It is one of
      the 101 reachable names, and it is "cache--48", outside "cache-0" .. "cache-99", exactly
      when the key's hash is `Integer.MIN_VALUE`. */
  function DataKey(key: JString): (name: JString)
    ensures Reachable(name)
    ensures name == ShardName(MIN_HASH_INDEX) <==> HashCode(key) == MIN_VALUE
    ensures HashCode(key) == MIN_VALUE <==> !(exists i :: 0 <= i < SHARD_COUNT && name == ShardName(i))
  {
    var i := ShardIndex(HashCode(key));
    var name := ShardName(i);
    assert forall j :: name == ShardName(j) ==> i == j by {
      forall j | name == ShardName(j) ensures i == j {
        ShardNameInjective(i, j);
      }
    }
    name
  }

  /** Two indexes give the same map name only if they are equal. */
  lemma ShardNameInjective(i: int, j: int)
    requires ShardName(i) == ShardName(j)
    ensures i == j
  {
    assert ShardName(i)[|PREFIX|..] == ShardName(j)[|PREFIX|..];
  }

  /** Each of "cache-0" .. "cache-99" is used: the one-unit key whose code unit is `i` is
      routed to "cache-i". */
  lemma EveryInRangeNameReached(i: int)
    requires 0 <= i < SHARD_COUNT
    ensures exists key: JString :: DataKey(key) == ShardName(i)
  {
    var key: JString := [i];
    assert key[..0] == [];
    assert HashCode(key[..0]) == 0;
    assert Mul(31, 0) == 0;
    assert Add(0, i) == i;
    assert HashCode(key) == i;
    assert Abs(i) == i;
    assert ShardIndex(i) == i;
    assert DataKey(key) == ShardName(i);
  }

  /** The names keys are routed to are exactly the 101 reachable ones. */
  lemma RoutedNamesAreReachable(name: JString)
    ensures (exists key: JString :: DataKey(key) == name) <==> Reachable(name)
  {
    if name == ShardName(MIN_HASH_INDEX) {
      MinHashKeyRoutedOutOfRange();
    } else if i :| 0 <= i < SHARD_COUNT && name == ShardName(i) {
      EveryInRangeNameReached(i);
    }
  }

  /** The "cache--48" map is really used: the key "GydZG_" is routed to it. */
  lemma MinHashKeyRoutedOutOfRange()
    ensures DataKey(MIN_HASH_KEY) == ShardName(MIN_HASH_INDEX)
    ensures DataKey(MIN_HASH_KEY) == PREFIX + [MINUS, '4' as int, '8' as int]
  {
    MinHashKeyHash();
    assert Digits(48) == ['4' as int, '8' as int];
  }
}
