/** The message handling of the `DistributedCache` actor: each incoming message is turned
    into at most one outgoing message, either a command to the local replicator or a
    `Cached` reply to the actor that asked for a key. The handlers keep no state of their
    own; the one value they read, the replicated map of a shard, arrives inside the
    replicator's `GetSuccess` message. */
module Dispatch {
  import opened JavaLang
  import opened JavaString
  import opened ShardRouting
  import opened CachedValue

  /** The address of an actor. */
  datatype ActorRef = ActorRef(address: nat)

  /** `DistributedCache.Request`: the key being read and the actor to answer. Requests are
      created only for non-null keys, since a null key fails before the read is sent. */
  datatype Request = Request(key: JString, replyTo: ActorRef)

  /** The request context a replicator `Get` carries and its responses echo back: absent,
      a `Request`, or an object of another class. */
  datatype Context = NoContext | RequestContext(req: Request) | OtherContext

  /** The contents of one shard's replicated map, from key to stored (possibly null) value. */
  type ShardMap<V> = map<JString, Nullable<V>>

  /** Messages the actor receives: the three cache commands and the replicator's responses. */
  datatype Message<V> =
    | PutIn(key: Nullable<JString>, value: Nullable<V>)
    | Evict(key: Nullable<JString>)
    | GetFrom(key: Nullable<JString>)
    | GetSuccess(context: Context, data: ShardMap<V>)
    | NotFound(context: Context)
    | UpdateResponse
    | OtherMessage

  datatype Consistency = ReadLocal | WriteLocal

  /** The change an `Update` applies to the shard's map, as this cluster node. */
  datatype Modify<V> = PutEntry(entryKey: JString, value: Nullable<V>) | RemoveEntry(entryKey: JString)

  /** Messages the actor sends: `Update` and `Get` go to the replicator, `Reply` to a reader. */
  datatype Outgoing<V> =
    | Update(dataKey: JString, writeConsistency: Consistency, modification: Modify<V>)
    | Get(dataKey: JString, readConsistency: Consistency, context: Context)
    | Reply(to: ActorRef, cached: Cached<V>)

  datatype Exception = NullPointerException | NoSuchElementException | ClassCastException

  /** What handling one message does. */
  datatype Effect<V> =
    | Send(out: Outgoing<V>)
    | NoEffect
    | Unhandled
    | Throws(exception: Exception)

  /** `receivePutIn`: one local `Update` of the key's shard that puts the value under that
      key and touches no other key; nothing goes back to the caller. A null key fails in
      `dataKey` before anything is sent. */
  function ReceivePutIn<V>(key: Nullable<JString>, value: Nullable<V>): (e: Effect<V>)
    ensures key.Null? <==> e == Throws(NullPointerException)
    ensures key.Ref? ==> e.Send? && e.out.Update? && e.out.writeConsistency == WriteLocal
    ensures key.Ref? ==> e.out.dataKey == DataKey(key.get) && Reachable(e.out.dataKey)
    ensures key.Ref? ==> e.out.modification == PutEntry(key.get, value)
  {
    if key.Null? then Throws(NullPointerException)
    else Send(Update(DataKey(key.get), WriteLocal, PutEntry(key.get, value)))
  }

  /** `receiveEvict`: one local `Update` of the key's shard that removes that key and
      touches no other key; nothing goes back to the caller. A null key fails in `dataKey`. */
  function ReceiveEvict<V>(key: Nullable<JString>): (e: Effect<V>)
    ensures key.Null? <==> e == Throws(NullPointerException)
    ensures key.Ref? ==> e.Send? && e.out.Update? && e.out.writeConsistency == WriteLocal
    ensures key.Ref? ==> e.out.dataKey == DataKey(key.get) && Reachable(e.out.dataKey)
    ensures key.Ref? ==> e.out.modification == RemoveEntry(key.get)
  {
    if key.Null? then Throws(NullPointerException)
    else Send(Update(DataKey(key.get), WriteLocal, RemoveEntry(key.get)))
  }

  /** `receiveGetFrom`: one local `Get` of the key's shard whose context, once cast back
      to a `Request`, holds the key and the sender. A null key fails in `dataKey` after the
      context is built and before anything is sent. */
  function ReceiveGetFrom<V>(key: Nullable<JString>, sender: ActorRef): (e: Effect<V>)
    ensures key.Null? <==> e == Throws(NullPointerException)
    ensures key.Ref? ==> e.Send? && e.out.Get? && e.out.readConsistency == ReadLocal
    ensures key.Ref? ==> e.out.dataKey == DataKey(key.get) && Reachable(e.out.dataKey)
    ensures key.Ref? ==> RequestOf(e.out.context) == Success(Request(key.get, sender))
  {
    if key.Null? then Throws(NullPointerException)
    else Send(Get(DataKey(key.get), ReadLocal, RequestContext(Request(key.get, sender))))
  }

  /** `(Request) response.getRequest().get()`: an empty context fails in `get()`, a context
      of another class fails in the cast. */
  function RequestOf(context: Context): (r: Result<Request>)
    ensures context.NoContext? <==> r == Failure(NoSuchElementException)
    ensures context.OtherContext? <==> r == Failure(ClassCastException)
    ensures context.RequestContext? ==> r == Success(context.req)
  {
    match context
    case NoContext => Failure(NoSuchElementException)
    case OtherContext => Failure(ClassCastException)
    case RequestContext(req) => Success(req)
  }

  datatype Result<T> = Success(value: T) | Failure(exception: Exception)

  /** The value read for `key`: present when the map holds a non-null value for it. */
  function Lookup<V>(data: ShardMap<V>, key: JString): Optional<V>
  {
    if key in data && data[key].Ref? then Of(data[key].get) else Empty
  }

  /** `receiveSuccess`: a reply to the remembered reader carrying the remembered key; its
      value is present exactly when the map holds a non-null value for that key, and is then
      that value. A missing or foreign context fails as `RequestOf` does. */
  function ReceiveSuccess<V>(context: Context, data: ShardMap<V>): (e: Effect<V>)
    ensures RequestOf(context).Failure? ==> e == Throws(RequestOf(context).exception)
    ensures RequestOf(context).Success? ==>
      var req := RequestOf(context).value;
      && e.Send? && e.out.Reply? && e.out.to == req.replyTo
      && e.out.cached.key == Ref(req.key) && e.out.cached.value.Ref?
      && (e.out.cached.value.get.Of? <==> req.key in data && data[req.key].Ref?)
      && (e.out.cached.value.get.Of? ==> e.out.cached.value.get.content == data[req.key].get)
  {
    match RequestOf(context)
    case Failure(e) => Throws(e)
    case Success(req) => Send(Reply(req.replyTo, Cached(Ref(req.key), Ref(Lookup(data, req.key)))))
  }

  /** `receiveNotFound`: a reply to the remembered reader carrying the remembered key and
      an empty value. A missing or foreign context fails as `RequestOf` does. */
  function ReceiveNotFound<V>(context: Context): (e: Effect<V>)
    ensures RequestOf(context).Failure? ==> e == Throws(RequestOf(context).exception)
    ensures RequestOf(context).Success? ==>
      var req := RequestOf(context).value;
      e.Send? && e.out.Reply? && e.out.to == req.replyTo
      && e.out.cached == Cached(Ref(req.key), Ref(Empty))
  {
    match RequestOf(context)
    case Failure(e) => Throws(e)
    case Success(req) => Send(Reply(req.replyTo, Cached(Ref(req.key), Ref(Empty))))
  }

  /** `createReceive`: dispatch on the class of the message. Each message has at most one
      effect: only the three cache commands reach the replicator, each on the shard of its
      own key; only the replicator's read responses produce a reply; an `UpdateResponse`
      does nothing and any other message is left unhandled. */
  function Receive<V>(msg: Message<V>, sender: ActorRef): (e: Effect<V>)
    ensures e.Send? && (e.out.Update? || e.out.Get?) ==>
      (msg.PutIn? || msg.Evict? || msg.GetFrom?) && msg.key.Ref? && e.out.dataKey == DataKey(msg.key.get)
    ensures e.Send? && e.out.Update? ==> msg.PutIn? || msg.Evict?
    ensures e.Send? && e.out.Reply? ==> msg.GetSuccess? || msg.NotFound?
    ensures e.NoEffect? <==> msg.UpdateResponse?
    ensures e.Unhandled? <==> msg.OtherMessage?
  {
    match msg
    case PutIn(key, value) => ReceivePutIn(key, value)
    case Evict(key) => ReceiveEvict(key)
    case GetFrom(key) => ReceiveGetFrom(key, sender)
    case GetSuccess(context, data) => ReceiveSuccess(context, data)
    case NotFound(context) => ReceiveNotFound(context)
    case UpdateResponse => NoEffect
    case OtherMessage => Unhandled
  }

  /** The map a command addresses, if it addresses one. */
  function Target<V>(e: Effect<V>): Nullable<JString>
  {
    if e.Send? && e.out.Update? then Ref(e.out.dataKey)
    else if e.Send? && e.out.Get? then Ref(e.out.dataKey)
    else Null
  }

  /** Put, evict and get of one key all address the same map, whoever sends them. */
  lemma SameKeySameShard<V>(k: JString, v: Nullable<V>, s1: ActorRef, s2: ActorRef, s3: ActorRef)
    ensures Target(Receive(PutIn(Ref(k), v), s1)) == Ref(DataKey(k))
    ensures Target(Receive(Message<V>.Evict(Ref(k)), s2)) == Ref(DataKey(k))
    ensures Target(Receive(Message<V>.GetFrom(Ref(k)), s3)) == Ref(DataKey(k))
  {
    assert Receive(PutIn(Ref(k), v), s1) == ReceivePutIn(Ref(k), v);
    assert Receive(Message<V>.Evict(Ref(k)), s2) == ReceiveEvict(Ref(k));
    assert Receive(Message<V>.GetFrom(Ref(k)), s3) == ReceiveGetFrom(Ref(k), s3);
  }

  /** The read cycle: the context of the `Get` issued for `GetFrom(k)` from `reader`, when
      the replicator echoes it back, makes the actor answer `reader` with key `k`; the value
      is what the shard holds for `k` on success and empty when the shard is not found. */
  lemma ReadRoundTrip<V>(k: JString, reader: ActorRef, replicator: ActorRef, data: ShardMap<V>)
    ensures Receive(Message<V>.GetFrom(Ref(k)), reader).Send?
    ensures var ctx := Receive(Message<V>.GetFrom(Ref(k)), reader).out.context;
      && Receive(GetSuccess(ctx, data), replicator) == Send(Reply(reader, Cached(Ref(k), Ref(Lookup(data, k)))))
      && Receive(Message<V>.NotFound(ctx), replicator) == Send(Reply(reader, Cached(Ref(k), Ref(Empty))))
  {
  }
}
