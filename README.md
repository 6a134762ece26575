# MiniKVStore distributed cache core, in Dafny

MiniKVStore is an in-memory key-value cache. Its values are replicated across a cluster by
Akka Distributed Data: last-write-wins maps (`LWWMap`) kept consistent by gossip. The
repository's own logic lives in the actor `DistributedCache`. This project models three
parts of that actor and proves properties of them:

- **Shard routing** (`dataKey`). Every key is stored in the replicated map named
  `"cache-" + Math.abs(key.hashCode()) % 100`. The model spells out the Java semantics:
  - `String.hashCode` over UTF-16 code units, with 32-bit wraparound.
  - `Math.abs(int)`, which returns `Integer.MIN_VALUE` unchanged.
  - The truncated `%` operator.
  - The decimal text that string concatenation gives an `int`.

  Nearly every key lands in `"cache-0"` .. `"cache-99"`. A key whose hash is
  `Integer.MIN_VALUE` lands in `"cache--48"` instead. One such key is `"GydZG_"`, and the
  model proves this.
- **`Cached` equality and hash**. `Cached` is the reply to a read. It holds a key and an
  `Optional` value, and both fields may be null. The model covers its null-aware structural
  `equals` and its 31-based `hashCode`. The stored values are arbitrary Java objects, so
  their own `equals` and `hashCode` are parameters.
- **Message handling** (`createReceive` and the `receive*` handlers). These are modelled as
  one pure function, `Dispatch.Receive`. It maps an incoming message and its sender to what
  the actor does: send one message, do nothing, leave the message unhandled, or throw.
  - `PutIn` and `Evict` become an `Update` of the key's shard.
  - `GetFrom` becomes a `Get` that remembers the key and the reader.
  - `GetSuccess` and `NotFound` become a `Cached` reply to that reader.
  - The replicated map is read only where the actor reads it: inside `GetSuccess`.

Files:

- `java_lang.dfy`: Java `int` arithmetic, `Math.abs` and `%`, plus null and `Optional`.
- `java_string.dfy`: `String.hashCode` and decimal rendering.
- `shard_routing.dfy`: `dataKey`.
- `cached_value.dfy`: `Cached.equals` and `Cached.hashCode`.
- `dispatch.dfy`: the handlers.

Three facts about the code shape the model:
- The shard count is fixed at 100. Because of `Math.abs(Integer.MIN_VALUE)`, one map
  outside "cache-0" .. "cache-99", "cache--48", can also occur.
- A read does not look anything up itself. It sends the replicator a `Get` with `readLocal`
  consistency and answers when the replicator responds.
- Evict sends an `Update` whose change is `LWWMap.remove` of the key.

## Model

| member | source | states |
|---|---|---|
| JavaLang.Wrap | MiniKVStore/src/main/java/io/github/nc/minikvstore/DistributedCache.java:62-66 | the `int` result of an arithmetic step is congruent to the exact result modulo 2^32, and equals it when it fits in 32 bits |
| JavaLang.WrapCongruent | MiniKVStore/src/main/java/io/github/nc/minikvstore/DistributedCache.java:62-66 | results that agree modulo 2^32 are the same `int` |
| JavaLang.WrapInner | MiniKVStore/src/main/java/io/github/nc/minikvstore/DistributedCache.java:62-66 | in `m * x + c`, reducing the intermediate `x` to 32 bits does not change the final `int` |
| JavaLang.Abs | MiniKVStore/src/main/java/io/github/nc/minikvstore/DistributedCache.java:153 | `Math.abs` returns the non-negative magnitude for every `int` except `Integer.MIN_VALUE`, which it returns unchanged |
| JavaLang.Quot | MiniKVStore/src/main/java/io/github/nc/minikvstore/DistributedCache.java:153 | Java division rounds toward zero; it agrees with floor division for a non-negative dividend and positive divisor |
| JavaLang.Rem | MiniKVStore/src/main/java/io/github/nc/minikvstore/DistributedCache.java:153 | `%` satisfies (a/b)*b + a%b == a with truncating `/`; it has the sign of the dividend and is smaller in magnitude than the divisor |
| JavaLang.RemUnique | MiniKVStore/src/main/java/io/github/nc/minikvstore/DistributedCache.java:153 | those properties determine the remainder uniquely, so `Rem` is the JLS remainder and nothing else |
| JavaString.PolynomialSnoc | MiniKVStore/src/main/java/io/github/nc/minikvstore/DistributedCache.java:153 | appending a code unit c turns the hash polynomial p into 31*p + c |
| JavaString.HashCode | MiniKVStore/src/main/java/io/github/nc/minikvstore/DistributedCache.java:153 | `String.hashCode`, accumulated left to right as `h = 31*h + c` in `int`, equals the documented polynomial s[0]*31^(n-1) + ... + s[n-1] reduced to 32 bits, for every string |
| JavaString.MinHashKeyHash | MiniKVStore/src/main/java/io/github/nc/minikvstore/DistributedCache.java:153 | the key "GydZG_" has hash `Integer.MIN_VALUE` |
| JavaString.Digits | MiniKVStore/src/main/java/io/github/nc/minikvstore/DistributedCache.java:153 | the decimal text of a magnitude is non-empty, made only of the digits '0'..'9', and has no leading zero unless it is "0" |
| JavaString.DigitsRoundTrip | MiniKVStore/src/main/java/io/github/nc/minikvstore/DistributedCache.java:153 | reading the digits back gives the number |
| JavaString.Decimal | MiniKVStore/src/main/java/io/github/nc/minikvstore/DistributedCache.java:153 | the text `"cache-" + i` appends for an `int` has a minus sign exactly when i is negative. It then has only digits, with no leading zero unless the text is "0", and reading it back gives i |
| JavaString.DecimalInjective | MiniKVStore/src/main/java/io/github/nc/minikvstore/DistributedCache.java:153 | distinct `int` values have distinct decimal texts |
| ShardRouting.ShardIndex | MiniKVStore/src/main/java/io/github/nc/minikvstore/DistributedCache.java:153 | `Math.abs(h) % 100` lies in 0..99 for every hash except `Integer.MIN_VALUE`, where it is exactly -48 |
| ShardRouting.ShardName | MiniKVStore/src/main/java/io/github/nc/minikvstore/DistributedCache.java:153 | a map name is "cache-" followed by text from which the index can be read back |
| ShardRouting.ShardNameInjective | MiniKVStore/src/main/java/io/github/nc/minikvstore/DistributedCache.java:153 | distinct shard indexes give distinct map names |
| ShardRouting.DataKey | MiniKVStore/src/main/java/io/github/nc/minikvstore/DistributedCache.java:152-154 | `dataKey` routes every key to one of "cache-0" .. "cache-99" or "cache--48". The name is "cache--48", and none of "cache-0" .. "cache-99", exactly when the key's hash is `Integer.MIN_VALUE` |
| ShardRouting.EveryInRangeNameReached | MiniKVStore/src/main/java/io/github/nc/minikvstore/DistributedCache.java:152-154 | each of "cache-0" .. "cache-99" is the map of some key |
| ShardRouting.MinHashKeyRoutedOutOfRange | MiniKVStore/src/main/java/io/github/nc/minikvstore/DistributedCache.java:152-154 | the out-of-range map is reachable: the key "GydZG_" is routed to the map named "cache--48" |
| ShardRouting.RoutedNamesAreReachable | MiniKVStore/src/main/java/io/github/nc/minikvstore/DistributedCache.java:152-154 | the names keys are routed to are exactly "cache-0" .. "cache-99" and "cache--48" |
| CachedValue.HashCode | MiniKVStore/src/main/java/io/github/nc/minikvstore/DistributedCache.java:60-67 | the step-by-step hash equals 31*(31 + hk) + hv reduced to 32 bits once, with 0 for a null field and for an empty value |
| CachedValue.Equals | MiniKVStore/src/main/java/io/github/nc/minikvstore/DistributedCache.java:70-89 | `equals` holds between an object and itself, whatever the stored value's `equals` does. It is false for null and for another class. Between two `Cached` objects it holds exactly when the keys are equal and the values are equal, with null equal only to null |
| CachedValue.EqualsSymmetric | MiniKVStore/src/main/java/io/github/nc/minikvstore/DistributedCache.java:70-89 | `equals` is symmetric when the stored values' `equals` is |
| CachedValue.EqualsTransitive | MiniKVStore/src/main/java/io/github/nc/minikvstore/DistributedCache.java:70-89 | `equals` is transitive when the stored values' `equals` is |
| CachedValue.EqualsImpliesEqualHashCode | MiniKVStore/src/main/java/io/github/nc/minikvstore/DistributedCache.java:60-89 | equal `Cached` objects have equal `hashCode`, given that equal stored values have equal hashes |
| Dispatch.ReceivePutIn | MiniKVStore/src/main/java/io/github/nc/minikvstore/DistributedCache.java:122-126 | for a non-null key, exactly one `Update` with local write consistency on the key's shard, one of the reachable names. It puts the value under that key only and sends no reply. A null key throws NullPointerException and sends nothing |
| Dispatch.ReceiveEvict | MiniKVStore/src/main/java/io/github/nc/minikvstore/DistributedCache.java:128-132 | for a non-null key, exactly one `Update` with local write consistency on the key's shard, one of the reachable names. It removes that key only and sends no reply. A null key throws NullPointerException and sends nothing |
| Dispatch.ReceiveGetFrom | MiniKVStore/src/main/java/io/github/nc/minikvstore/DistributedCache.java:134-138 | for a non-null key, exactly one `Get` with local read consistency on the key's shard. Its context reads back as the `Request` of that key and the sender. A null key throws NullPointerException and sends nothing |
| Dispatch.RequestOf | MiniKVStore/src/main/java/io/github/nc/minikvstore/DistributedCache.java:141 | `(Request) getRequest().get()` throws NoSuchElementException for an empty context and ClassCastException for a context of another class, and otherwise yields the request |
| Dispatch.ReceiveSuccess | MiniKVStore/src/main/java/io/github/nc/minikvstore/DistributedCache.java:140-145 | the reply goes to the remembered reader and carries the remembered key. Its value is present exactly when the map holds a non-null value for that key, and then it is that value. A bad context throws as `RequestOf` does |
| Dispatch.ReceiveNotFound | MiniKVStore/src/main/java/io/github/nc/minikvstore/DistributedCache.java:147-150 | the reply goes to the remembered reader with the remembered key and an empty value. A bad context throws as `RequestOf` does |
| Dispatch.Receive | MiniKVStore/src/main/java/io/github/nc/minikvstore/DistributedCache.java:111-120 | each message has at most one effect. Only `PutIn`, `Evict` and `GetFrom` with a non-null key reach the replicator, each on its own key's shard, and only `PutIn` and `Evict` send an `Update`. Only `GetSuccess` and `NotFound` produce a reply. `UpdateResponse`, and only it, does nothing. Any other message, and only such a message, is unhandled |
| Dispatch.SameKeySameShard | MiniKVStore/src/main/java/io/github/nc/minikvstore/DistributedCache.java:122-138 | put, evict and get of one key all address the same map, whoever sends them |
| Dispatch.ReadRoundTrip | MiniKVStore/src/main/java/io/github/nc/minikvstore/DistributedCache.java:134-150 | the replicator echoes back the context of the `Get` sent for `GetFrom(k)` from a reader. The reply then goes to that reader with key k. Its value is the shard's value for k on success, and empty when the shard is not found |

## Left out

- The last-write-wins merge, the gossip, the replicator's storage and the cluster node
  identity (`LWWMap.put`/`remove`, `Replicator`, `Cluster.get`) are library behaviour.
  They are not part of this repository.
  - An `Update` is modelled by the change it asks for: put or remove of one key, as this
    node.
  - The initial value of an `Update` (an empty `LWWMap`) is not recorded.
  - A shard's map appears only as the data a `GetSuccess` carries.
- Actor lifecycle, `Props`, mailbox ordering and delivery are concurrency runtime concerns.
  So is the sender the actor attaches to its own messages, which is always itself.
  - A message the actor does not match is modelled as `Unhandled`, without Akka's
    dead-letter and event-stream handling.
- `Cached.toString` is formatting only.
- Object identity (`this == obj` in `equals`, and the identity check of `Optional.equals`)
  is modelled as equality of values.
  - Two distinct Java objects with equal fields count as identical.
  - This changes a result only when a stored value's `equals` is not reflexive.
- `Optional.equals` between a present and an empty optional is modelled as false. That
  follows the `Object.equals` contract that `x.equals(null)` is false.
- Java strings are sequences of UTF-16 code units (integers below 65536). There is no
  conversion from Dafny characters.
- The HTTP layer in CacheController.java and the startup in App.java are I/O and
  configuration, and are not part of this model. That covers the Spark handlers, the
  double-checked-locking singleton and the one-second blocking ask.
- The eventual-consistency properties of the system (convergence, read-after-write) belong
  to the replication library, so they are not modelled here.
