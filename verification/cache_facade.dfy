/**
 The `Cache[T]` facade of interface.go, run sequentially: every read consults the bounded
 write queue before the engine, writes only enqueue, and one pass of the background write
 loop (`Drain`) moves the queued values into the engine.

 The engine is abstract: a map from key to either a value of the cache's type or a value of
 some other type, plus injected failures. Per-key locks are left out: in a sequential model
 every lock is a no-op, so `getNoLock`/`setNoLock` coincide with `Get`/`Set`.
 */
module CacheFacade {
  import opened Wrappers
  import opened Collections
  import BQ = BoundedQueue

  type Key = string
  type Predicate = Key -> bool

  /** Size of the write queue `MakeCache` creates. */
  const WRITE_QUEUE_SIZE: nat := 1000

  datatype Error =
    | NotFound                // ErrNotFound
    | WrongDataType           // ErrWrongDataType
    | Backend(code: nat)      // an engine error, passed through unchanged
    | Evaluator(code: nat)    // an error of a caller-supplied evaluator

  /**
   What the engine holds under a key: a `*T` (what the write loop stores), a bare `T`, or a
   value of another type.
   */
  datatype Stored<T> = Pointer(ptr: Option<T>) | Plain(value: T) | Foreign

  /**
   The engine state. A key in `broken` makes every Get, Peek, Set and Delete of that key fail
   with the given code; `keysFault` and `purgeFault` make Keys and Purge fail.
   */
  datatype Engine<T> = Engine(
    store: map<Key, Stored<T>>,
    broken: map<Key, nat>,
    keysFault: Option<nat>,
    purgeFault: Option<nat>)

  datatype Fetched<T> = Fetched(stored: Stored<T>) | FetchFailed(error: Error)

  datatype Cache<T> = Cache(engine: Engine<T>, queue: BQ.Queue<T>)

  /** A Go `(*T, error)` result. */
  datatype Reply<T> = Reply(value: Option<T>, err: Option<Error>)

  /** A mutator's new state and returned error. */
  datatype Outcome<T> = Outcome(cache: Cache<T>, err: Option<Error>)

  /** The result of a compute-on-miss call, and whether it ran the evaluator. */
  datatype Computed<T> = Computed(cache: Cache<T>, reply: Reply<T>, evaluated: bool)

  function NotFoundReply<T>(): Reply<T> {
    Reply(None, Some(NotFound))
  }

  // ---------------------------------------------------------------------------
  // The abstract engine

  function EngineGet<T>(e: Engine<T>, k: Key): Fetched<T> {
    if k in e.broken then FetchFailed(Backend(e.broken[k]))
    else if k in e.store then Fetched(e.store[k])
    else FetchFailed(NotFound)
  }

  /** The engine after a Set of `k`, and the error it returned. */
  function EngineWrite<T>(e: Engine<T>, k: Key, v: Option<T>): (Engine<T>, Option<Error>) {
    if k in e.broken then (e, Some(Backend(e.broken[k])))
    else (e.(store := e.store[k := Pointer(v)]), None)
  }

  function EngineDelete<T>(e: Engine<T>, k: Key): (Engine<T>, Option<Error>) {
    if k in e.broken then (e, Some(Backend(e.broken[k])))
    else (e.(store := e.store - {k}), None)
  }

  // ---------------------------------------------------------------------------
  // The facade

  /** The bound on the write queue that every operation keeps. */
  ghost predicate Valid<T>(c: Cache<T>) {
    BQ.Bounded(c.queue)
  }

  /** Whether `k` is the key of the pair being written. */
  predicate InFlight<T>(c: Cache<T>, k: Key) {
    c.queue.writing.Some? && c.queue.writing.value.key == k
  }

  function MakeCache<T>(engine: Engine<T>): (c: Cache<T>)
    ensures Valid(c) && c.engine == engine
    ensures c.queue.size == WRITE_QUEUE_SIZE && c.queue.values == map[] && c.queue.invalid == {}
    ensures forall k :: !BQ.Get(c.queue, k).found
  {
    Cache(engine, BQ.New(WRITE_QUEUE_SIZE))
  }

  /**
   `getNoLock`: a queue hit answers without the engine (a nil hit is NotFound); otherwise
   the engine answers, anything but a `*T` being WrongDataType. The pending value is a
   typed nil `*T`, so the source's reflection test always takes the `*T` branch.
   */
  function Get<T>(c: Cache<T>, k: Key): (r: Reply<T>)
    // A queued pair answers first, a nil value reading as NotFound ...
    ensures k in c.queue.values ==>
      r == if c.queue.values[k].Some? then Reply(c.queue.values[k], None) else NotFoundReply()
    ensures k !in c.queue.values && InFlight(c, k) ==>
      r == if c.queue.writing.value.value.Some? then Reply(c.queue.writing.value.value, None) else NotFoundReply()
    ensures k !in c.queue.values && !InFlight(c, k) && k in c.queue.invalid ==> r == NotFoundReply()
    // ... and otherwise the engine does.
    ensures !BQ.Get(c.queue, k).found && k in c.engine.broken ==> r == Reply(None, Some(Backend(c.engine.broken[k])))
    ensures !BQ.Get(c.queue, k).found && k !in c.engine.broken && k !in c.engine.store ==> r == NotFoundReply()
    ensures !BQ.Get(c.queue, k).found && k !in c.engine.broken && k in c.engine.store && c.engine.store[k].Pointer? ==>
      r == Reply(c.engine.store[k].ptr, None)
    ensures r.err.Some? ==> r.value.None?
    ensures BQ.Get(c.queue, k).found ==> r.err.None? || r.err == Some(NotFound)
    ensures r.err == Some(WrongDataType) <==>
      !BQ.Get(c.queue, k).found && k !in c.engine.broken && k in c.engine.store && !c.engine.store[k].Pointer?
  {
    var hit := BQ.Get(c.queue, k);
    if hit.found then
      if hit.value.None? then NotFoundReply() else Reply(hit.value, None)
    else
      match EngineGet(c.engine, k)
      case FetchFailed(e) => Reply(None, Some(e))
      case Fetched(Pointer(v)) => Reply(v, None)
      case Fetched(_) => Reply(None, Some(WrongDataType))
  }

  /**
   `Peek` as the source writes it: the engine's value is asserted to be a bare `T`, so a
   `*T`, the only thing the write loop ever stores, reads as NotFound.
   */
  function PeekAsWritten<T>(c: Cache<T>, k: Key): (r: Reply<T>)
    ensures BQ.Get(c.queue, k).found ==> r == Get(c, k)
    ensures !BQ.Get(c.queue, k).found && k in c.engine.broken ==> r == Reply(None, Some(Backend(c.engine.broken[k])))
    ensures !BQ.Get(c.queue, k).found && k !in c.engine.broken && k !in c.engine.store ==> r == NotFoundReply()
    ensures !BQ.Get(c.queue, k).found && k !in c.engine.broken && k in c.engine.store ==>
      r == if c.engine.store[k].Plain? then Reply(Some(c.engine.store[k].value), None) else NotFoundReply()
    ensures r.err != Some(WrongDataType)
  {
    var hit := BQ.Get(c.queue, k);
    if hit.found then
      if hit.value.None? then NotFoundReply() else Reply(hit.value, None)
    else
      match EngineGet(c.engine, k)
      case FetchFailed(e) => Reply(None, Some(e))
      case Fetched(Plain(v)) => Reply(Some(v), None)
      case Fetched(_) => NotFoundReply()
  }

  /**
   `Peek` with the engine's value asserted to be a `*T`, as `getNoLock` does: `Get`, except
   that a value of another type reads as NotFound.
   */
  function Peek<T>(c: Cache<T>, k: Key): (r: Reply<T>)
    ensures r == if Get(c, k).err == Some(WrongDataType) then NotFoundReply() else Get(c, k)
  {
    var hit := BQ.Get(c.queue, k);
    if hit.found then
      if hit.value.None? then NotFoundReply() else Reply(hit.value, None)
    else
      match EngineGet(c.engine, k)
      case FetchFailed(e) => Reply(None, Some(e))
      case Fetched(Pointer(v)) => Reply(v, None)
      case Fetched(_) => NotFoundReply()
  }

  /**
   `Set` never fails and never touches the engine. A following read sees the value, unless
   the full queue refused the key (then NotFound, unless the key is being written).
   */
  function Set<T>(c: Cache<T>, k: Key, v: Option<T>): (r: Cache<T>)
    ensures r.engine == c.engine
    ensures Valid(c) ==> Valid(r)
    ensures BQ.Accepts(c.queue, k) ==> Get(r, k) == if v.Some? then Reply(v, None) else NotFoundReply()
    ensures !BQ.Accepts(c.queue, k) && !InFlight(c, k) ==> Get(r, k) == NotFoundReply()
    ensures forall k' :: k' != k ==> Get(r, k') == Get(c, k')
  {
    c.(queue := BQ.Enqueue(c.queue, k, v))
  }

  function Delete<T>(c: Cache<T>, k: Key): (r: Outcome<T>)
    ensures r.cache.queue == BQ.Delete(c.queue, k)
    ensures r.err == if k in c.engine.broken then Some(Backend(c.engine.broken[k])) else None
    ensures r.cache.engine.store == if r.err.None? then c.engine.store - {k} else c.engine.store
    ensures r.cache.engine.broken == c.engine.broken
    ensures r.err.None? && !InFlight(c, k) ==> Get(r.cache, k) == NotFoundReply()
    ensures forall k' :: k' != k ==> Get(r.cache, k') == Get(c, k')
    ensures Valid(c) ==> Valid(r.cache)
  {
    var (e, err) := EngineDelete(c.engine, k);
    Outcome(Cache(e, BQ.Delete(c.queue, k)), err)
  }

  function Purge<T>(c: Cache<T>): (r: Outcome<T>)
    ensures r.cache.queue.values == map[] && r.cache.queue.invalid == {}
    ensures r.err.Some? <==> c.engine.purgeFault.Some?
    ensures r.err.None? ==> forall k :: !InFlight(c, k) && k !in c.engine.broken ==> Get(r.cache, k) == NotFoundReply()
    ensures r.err.Some? ==> r.cache.engine == c.engine
    ensures Valid(c) ==> Valid(r.cache)
  {
    var q := BQ.Purge(c.queue);
    match c.engine.purgeFault
    case Some(code) => Outcome(c.(queue := q), Some(Backend(code)))
    case None => Outcome(Cache(c.engine.(store := map[]), q), None)
  }

  /** The queue's keys followed by the engine's keys (both in map order). */
  method Keys<T>(c: Cache<T>) returns (keys: seq<Key>, err: Option<Error>)
    ensures err == if c.engine.keysFault.Some? then Some(Backend(c.engine.keysFault.value)) else None
    ensures forall k :: k in keys <==>
      k in c.queue.values || k in c.queue.invalid || InFlight(c, k) || (err.None? && k in c.engine.store)
    ensures forall p :: (CountIn(keys, p)
      == BQ.CountPredicate(c.queue, p) + (if err.None? then |set k | k in c.engine.store && p(k)| else 0))
  {
    keys := BQ.Keys(c.queue);
    if c.engine.keysFault.Some? {
      return keys, Some(Backend(c.engine.keysFault.value));
    }
    var engineKeys := Enumerate(c.engine.store.Keys);
    forall p: Predicate ensures CountIn(keys + engineKeys, p) ==
      BQ.CountPredicate(c.queue, p) + |set k | k in c.engine.store && p(k)|
    {
      CountInConcat(keys, engineKeys, p);
      CountInDistinct(engineKeys, p, set k | k in c.engine.store && p(k));
    }
    keys, err := keys + engineKeys, None;
  }

  /**
   Counts the queue's matching keys, then the matching keys of `Keys`, which lists the
   queue's keys again: queue keys are counted twice.
   */
  method CountPredicate<T>(c: Cache<T>, p: Predicate) returns (count: nat, err: Option<Error>)
    ensures err == if c.engine.keysFault.Some? then Some(Backend(c.engine.keysFault.value)) else None
    ensures err.Some? ==> count == 0
    ensures err.None? ==> count == 2 * BQ.CountPredicate(c.queue, p) + |set k | k in c.engine.store && p(k)|
  {
    count := BQ.CountPredicate(c.queue, p);
    var keys;
    keys, err := Keys(c);
    if err.Some? {
      return 0, err;
    }
    var i := 0;
    while i < |keys|
      invariant 0 <= i <= |keys|
      invariant count == BQ.CountPredicate(c.queue, p) + CountIn(keys[..i], p)
    {
      assert keys[..i + 1][..i] == keys[..i];
      if p(keys[i]) {
        count := count + 1;
      }
      i := i + 1;
    }
    assert keys[..i] == keys;
  }

  /**
   The engine loop of `DeletePredicate`: deletes the keys of `keys` that match `p`, in order,
   stopping at the first failing delete and returning its error. `deleted` lists the keys
   deleted before that point, in order (a key listed twice is deleted twice).
   */
  method DeleteMatching<T>(e: Engine<T>, keys: seq<Key>, p: Predicate) returns (r: Engine<T>, deleted: seq<Key>, err: Option<Error>)
    ensures r.broken == e.broken && r.keysFault == e.keysFault && r.purgeFault == e.purgeFault
    ensures forall k :: k in r.store <==> k in e.store && k !in deleted
    ensures forall k :: k in r.store ==> r.store[k] == e.store[k]
    ensures err.None? <==> forall i :: 0 <= i < |keys| && p(keys[i]) ==> keys[i] !in e.broken
    ensures err.None? ==> deleted == Filter(keys, p)
    ensures err.Some? ==>
      exists i :: 0 <= i < |keys| && p(keys[i]) && keys[i] in e.broken
        && (forall j :: 0 <= j < i && p(keys[j]) ==> keys[j] !in e.broken)
        && err == Some(Backend(e.broken[keys[i]]))
        && deleted == Filter(keys[..i], p)
    ensures err.None? ==> forall k :: k in keys && p(k) ==> k !in r.store
    ensures forall k :: k in deleted ==> k in keys && p(k) && k !in e.broken
  {
    r, deleted, err := e, [], None;
    var i := 0;
    while i < |keys|
      invariant 0 <= i <= |keys|
      invariant deleted == Filter(keys[..i], p)
      invariant r.broken == e.broken && r.keysFault == e.keysFault && r.purgeFault == e.purgeFault
      invariant forall k :: k in r.store <==> k in e.store && k !in deleted
      invariant forall k :: k in r.store ==> r.store[k] == e.store[k]
      invariant forall j :: 0 <= j < i && p(keys[j]) ==> keys[j] !in e.broken
    {
      var k := keys[i];
      FilterSnoc(keys, i, p);
      if p(k) {
        var (next, failed) := EngineDelete(r, k);
        if failed.Some? {
          return r, deleted, failed;
        }
        r, deleted := next, deleted + [k];
      }
      i := i + 1;
    }
    assert keys[..i] == keys;
  }

  /**
   The queue half of `DeletePredicate`: drops the matching keys from the pending values and
   the invalid keys, listing them with the pending ones first.
   */
  method DeleteQueued<T>(c: Cache<T>, p: Predicate) returns (cleared: Cache<T>, fromQueue: seq<Key>)
    ensures cleared.engine == c.engine
    ensures cleared.queue.values == map k | k in c.queue.values && !p(k) :: c.queue.values[k]
    ensures cleared.queue.invalid == set k | k in c.queue.invalid && !p(k)
    ensures cleared.queue.writing == c.queue.writing && cleared.queue.size == c.queue.size
    ensures forall k :: k in cleared.queue.values || k in cleared.queue.invalid ==> !p(k)
    ensures Valid(c) ==> Valid(cleared)
    ensures var nv := |BQ.MatchingValues(c.queue, p)|;
      var n := nv + |BQ.MatchingInvalid(c.queue, p)|;
      && |fromQueue| == n
      && (forall k :: k in fromQueue[..nv] <==> k in c.queue.values && p(k))
      && (forall k :: k in fromQueue[nv..] <==> k in c.queue.invalid && p(k))
      && (forall k :: k in fromQueue <==> (k in c.queue.values || k in c.queue.invalid) && p(k))
  {
    var removed := BQ.DeletePredicate(c.queue, p);
    cleared, fromQueue := c.(queue := removed.queue), removed.keys;
    ghost var nv := |BQ.MatchingValues(c.queue, p)|;
    assert fromQueue == fromQueue[..nv] + fromQueue[nv..];
    assert forall k :: k in fromQueue ==> k in fromQueue[..nv] || k in fromQueue[nv..];
  }

  /**
   The engine half of `DeletePredicate`: lists the keys and deletes the matching ones from
   the engine, in listing order, stopping at the first failure.
   */
  method DeleteListed<T>(c: Cache<T>, p: Predicate) returns (engine: Engine<T>, deleted: seq<Key>, err: Option<Error>)
    ensures engine.broken == c.engine.broken && engine.keysFault == c.engine.keysFault && engine.purgeFault == c.engine.purgeFault
    ensures forall k :: k in engine.store <==> k in c.engine.store && k !in deleted
    ensures forall k :: k in engine.store ==> engine.store[k] == c.engine.store[k]
    ensures forall k :: k in deleted ==>
      p(k) && k !in c.engine.broken && (k in c.engine.store || InFlight(c, k) || k in c.queue.values || k in c.queue.invalid)
    ensures c.engine.keysFault.Some? ==> err == Some(Backend(c.engine.keysFault.value)) && deleted == []
    ensures c.engine.keysFault.None? && err.Some? ==>
      exists k :: k in c.engine.broken && p(k) && (k in c.engine.store || InFlight(c, k) || k in c.queue.values || k in c.queue.invalid)
        && err == Some(Backend(c.engine.broken[k]))
    ensures err.None? ==> forall k :: k in engine.store ==> !p(k)
  {
    var keys;
    keys, err := Keys(c);
    if err.Some? {
      return c.engine, [], err;
    }
    engine, deleted, err := DeleteMatching(c.engine, keys, p);
  }

  /**
   Removes the matching keys from the queue, then deletes every matching key `Keys` lists
   from the engine, stopping at the first engine error. Returns the keys removed from the
   queue followed by those deleted from the engine.
   */
  method DeletePredicate<T>(c: Cache<T>, p: Predicate) returns (r: Outcome<T>, removed: seq<Key>)
    ensures r.cache.queue.values == map k | k in c.queue.values && !p(k) :: c.queue.values[k]
    ensures r.cache.queue.invalid == set k | k in c.queue.invalid && !p(k)
    ensures r.cache.queue.writing == c.queue.writing && r.cache.queue.size == c.queue.size
    ensures forall k :: k in removed ==> p(k)
    ensures forall k :: (k in c.queue.values || k in c.queue.invalid) && p(k) ==> k in removed
    ensures r.cache.engine.broken == c.engine.broken && r.cache.engine.keysFault == c.engine.keysFault
    ensures r.cache.engine.purgeFault == c.engine.purgeFault
    ensures forall k :: k in r.cache.engine.store ==> k in c.engine.store && r.cache.engine.store[k] == c.engine.store[k]
    ensures forall k :: k in c.engine.store && k !in r.cache.engine.store ==> k in removed
    ensures r.err.None? ==> forall k :: k in r.cache.engine.store ==> !p(k)
    ensures r.err.Some? ==>
      || (c.engine.keysFault.Some? && r.err == Some(Backend(c.engine.keysFault.value)))
      || exists k :: k in c.engine.broken && p(k) && r.err == Some(Backend(c.engine.broken[k]))
    ensures Valid(c) ==> Valid(r.cache)
    // The order of `removed`: queued matches, then invalid matches, then engine deletions.
    ensures var nv := |BQ.MatchingValues(c.queue, p)|;
      var n := nv + |BQ.MatchingInvalid(c.queue, p)|;
      && n <= |removed|
      && (forall k :: k in removed[..nv] <==> k in c.queue.values && p(k))
      && (forall k :: k in removed[nv..n] <==> k in c.queue.invalid && p(k))
      && (forall k :: k in removed[n..] ==>
            p(k) && k !in c.engine.broken && (k in c.engine.store || InFlight(c, k)))
      && (forall k :: k in r.cache.engine.store <==> k in c.engine.store && k !in removed[n..])
      && (c.engine.keysFault.Some? ==> r.err == Some(Backend(c.engine.keysFault.value)) && |removed| == n)
    ensures c.engine.keysFault.None? && r.err.Some? ==>
      exists k :: k in c.engine.broken && p(k) && (k in c.engine.store || InFlight(c, k))
        && r.err == Some(Backend(c.engine.broken[k]))
  {
    var cleared, fromQueue := DeleteQueued(c, p);
    var engine, deleted, err := DeleteListed(cleared, p);
    r, removed := Outcome(cleared.(engine := engine), err), fromQueue + deleted;
    ghost var nv, n := |BQ.MatchingValues(c.queue, p)|, |fromQueue|;
    assert removed[..n] == fromQueue && removed[n..] == deleted;
    assert removed[..nv] == fromQueue[..nv] && removed[nv..n] == fromQueue[nv..];
  }

  /**
   Returns a hit without running the evaluator; on any lookup error runs it once, enqueueing
   and returning its value on success and returning its error, caching nothing, on failure.
   */
  function GetOrCompute<T>(c: Cache<T>, k: Key, eval: Reply<T>): (r: Computed<T>)
    ensures Get(c, k).err.None? ==> r == Computed(c, Get(c, k), false)
    ensures Get(c, k).err.Some? && eval.err.None? ==> r == Computed(Set(c, k, eval.value), Reply(eval.value, None), true)
    ensures Get(c, k).err.Some? && eval.err.Some? ==> r == Computed(c, Reply(None, eval.err), true)
    ensures r.cache.engine == c.engine
    ensures Valid(c) ==> Valid(r.cache)
  {
    var found := Get(c, k);
    if found.err.None? then Computed(c, found, false)
    else if eval.err.None? then Computed(Set(c, k, eval.value), Reply(eval.value, None), true)
    else Computed(c, Reply(None, eval.err), true)
  }

  /** The link `resolver` reads from `value`, when it names a key other than `k` to follow. */
  function NextLink<T>(resolver: Option<Option<T> -> Key>, value: Option<T>, k: Key): Option<Key> {
    if resolver.Some? && |resolver.value(value)| > 0 && resolver.value(value) != k
    then Some(resolver.value(value))
    else None
  }

  /**
   Follows links while the resolver names a non-empty key other than the current one.
   `fuel` bounds the number of links followed; `None` means it ran out, which is where the
   source recurses forever on a cycle of two or more keys.
   */
  function GetIndirect<T>(c: Cache<T>, k: Key, resolver: Option<Option<T> -> Key>, fuel: nat): (r: Option<Reply<T>>)
    ensures resolver.None? ==> r == Some(Get(c, k))
    ensures Get(c, k).err.Some? ==> r == Some(Reply(None, Get(c, k).err))
    ensures r.Some? && r.value.err.Some? ==> r.value.value.None?
    decreases fuel
  {
    var found := Get(c, k);
    if found.err.Some? then Some(Reply(None, found.err))
    else match NextLink(resolver, found.value, k)
      case None => Some(found)
      case Some(link) => if fuel == 0 then None else GetIndirect(c, link, resolver, fuel - 1)
  }

  /**
   With a generator and a resolver, and a non-nil generated link value naming a key other
   than `k`, stores the link value under `k` and `v` under the link; otherwise stores `v`
   under the link (when it names `k`) or under `k`.
   */
  function SetIndirect<T>(c: Cache<T>, k: Key, v: Option<T>, resolver: Option<Option<T> -> Key>,
                          generator: Option<Option<T> -> Option<T>>): (r: Cache<T>)
    ensures r.engine == c.engine
    ensures Valid(c) ==> Valid(r)
    ensures resolver.None? || generator.None? || generator.value(v).None? ==> r == Set(c, k, v)
  {
    if generator.Some? && resolver.Some? && generator.value(v).Some? then
      var linkValue := generator.value(v);
      var link := resolver.value(linkValue);
      var linked := if link != k then Set(c, k, linkValue) else c;
      Set(linked, link, v)
    else
      Set(c, k, v)
  }

  /**
   `GetOrComputeEx`: a hit the validator accepts is returned as is. Otherwise the evaluator
   runs; its value is written (through `SetIndirect`) only when the lookup failed with
   exactly NotFound and the approver, if any, agrees. A value recomputed after any other
   lookup outcome, a validator rejection included, is returned with the lookup's error and
   not written. `None` when the link chain outruns `fuel`.
   */
  function GetOrComputeEx<T>(c: Cache<T>, k: Key, eval: Reply<T>,
                             validator: Option<Option<T> -> bool>,
                             resolver: Option<Option<T> -> Key>,
                             generator: Option<Option<T> -> Option<T>>,
                             approver: Option<Option<T> -> bool>,
                             fuel: nat): (r: Option<Computed<T>>)
    ensures r.Some? <==> GetIndirect(c, k, resolver, fuel).Some?
    ensures r.Some? ==> var found := GetIndirect(c, k, resolver, fuel).value;
      && (found.err.None? && (validator.None? || validator.value(found.value)) ==> r.value == Computed(c, found, false))
      && (!(found.err.None? && (validator.None? || validator.value(found.value))) ==> r.value.evaluated)
      && (r.value.evaluated && eval.err.Some? ==> r.value == Computed(c, Reply(None, eval.err), true))
      && (r.value.evaluated && eval.err.None? ==> r.value.reply.value == eval.value)
      && (r.value.evaluated && eval.err.None? && found.err != Some(NotFound) ==>
            r.value == Computed(c, Reply(eval.value, found.err), true))
      && (r.value.evaluated && eval.err.None? && found.err == Some(NotFound) ==>
            r.value.reply.err.None?
            && r.value.cache == if approver.None? || approver.value(eval.value)
                                then SetIndirect(c, k, eval.value, resolver, generator) else c)
    ensures r.Some? ==> r.value.cache.engine == c.engine
    ensures r.Some? && Valid(c) ==> Valid(r.value.cache)
  {
    match GetIndirect(c, k, resolver, fuel)
    case None => None
    case Some(found) =>
      if found.err.None? && (validator.None? || validator.value(found.value)) then
        Some(Computed(c, found, false))
      else if eval.err.Some? then
        Some(Computed(c, Reply(None, eval.err), true))
      else if found.err == Some(NotFound) then
        var written :=
          if approver.None? || approver.value(eval.value)
          then SetIndirect(c, k, eval.value, resolver, generator) else c;
        Some(Computed(written, Reply(eval.value, None), true))
      else
        Some(Computed(c, Reply(eval.value, found.err), true))
  }

  // ---------------------------------------------------------------------------
  // One pass of the write loop

  /** The engine contents after the pairs outside `pending` have been written. */
  ghost function WrittenSoFar<T>(c: Cache<T>, pending: set<Key>): map<Key, Stored<T>> {
    c.engine.store + map k | k in c.queue.values && k !in pending && k !in c.engine.broken :: Pointer(c.queue.values[k])
  }

  /** The keys outside `pending` whose write the engine refused. */
  ghost function Refused<T>(c: Cache<T>, pending: set<Key>): set<Key> {
    set k | k in c.queue.values && k !in pending && k in c.engine.broken
  }

  /**
   The state one full pass of the write loop leaves behind: every pending value is handed
   to the engine; those the engine accepted are stored as `*T`, the keys it refused become
   invalid, and the queue is empty.
   */
  ghost predicate Drained<T>(c: Cache<T>, r: Cache<T>) {
    && r.queue.values == map[]
    && r.queue.size == c.queue.size
    && r.queue.writing == (if |c.queue.values| == 0 then c.queue.writing else None)
    && r.queue.invalid == c.queue.invalid + Refused(c, {})
    && r.engine == c.engine.(store := WrittenSoFar(c, {}))
  }

  /** The write loop's invariant: `r` is `c` with the pairs no longer pending written. */
  ghost predicate Draining<T>(c: Cache<T>, r: Cache<T>) {
    && r.queue.values.Keys <= c.queue.values.Keys
    && (forall k :: k in r.queue.values ==> r.queue.values[k] == c.queue.values[k])
    && r.queue.size == c.queue.size
    && (r.queue.values == c.queue.values ==> r == c)
    && (r.queue.values != c.queue.values ==> r.queue.writing == None)
    && r.queue.invalid == c.queue.invalid + Refused(c, r.queue.values.Keys)
    && r.engine == c.engine.(store := WrittenSoFar(c, r.queue.values.Keys))
  }

  /** One round of the write loop: write the pending pair of `k` and clear the writer slot. */
  function WriteOne<T>(r: Cache<T>, k: Key): Cache<T>
    requires k in r.queue.values
  {
    var v := r.queue.values[k];
    var (e, err) := EngineWrite(r.engine, k, v);
    Cache(e, BQ.DoneWriting(r.queue.(values := r.queue.values - {k}, writing := Some(BQ.Pair(k, v))), err.None?))
  }

  /** Writing the pair of one more key stores it unless the engine refuses it. */
  lemma WrittenSoFarStep<T>(c: Cache<T>, pending: set<Key>, k: Key)
    requires k in pending && k in c.queue.values
    ensures WrittenSoFar(c, pending - {k})
         == if k in c.engine.broken then WrittenSoFar(c, pending)
            else WrittenSoFar(c, pending)[k := Pointer(c.queue.values[k])]
  {
  }

  /** Writing the pair of one more key adds it to the refused keys exactly when it is broken. */
  lemma RefusedStep<T>(c: Cache<T>, pending: set<Key>, k: Key)
    requires k in pending && k in c.queue.values
    ensures Refused(c, pending - {k}) == if k in c.engine.broken then Refused(c, pending) + {k} else Refused(c, pending)
  {
  }

  lemma WriteOneKeepsDraining<T>(c: Cache<T>, r: Cache<T>, k: Key)
    requires Draining(c, r) && k in r.queue.values
    ensures Draining(c, WriteOne(r, k))
  {
    var r' := WriteOne(r, k);
    var pending := r.queue.values.Keys;
    assert r'.queue.values.Keys == pending - {k};
    assert k in c.queue.values && k !in r'.queue.values;
    WrittenSoFarStep(c, pending, k);
    RefusedStep(c, pending, k);
  }

  lemma DrainingDone<T>(c: Cache<T>, r: Cache<T>)
    requires Draining(c, r) && |r.queue.values| == 0
    ensures Drained(c, r)
  {
    assert r.queue.values.Keys == {};
    if |c.queue.values| > 0 {
      assert r.queue.values != c.queue.values;
    }
  }

  /** One pass of `writeLoop`: start writing, Set on the engine, done writing, until empty. */
  method Drain<T>(c: Cache<T>) returns (r: Cache<T>)
    ensures Drained(c, r)
  {
    r := c;
    while true
      invariant Draining(c, r)
      decreases |r.queue.values|
    {
      var started := BQ.StartWriting(r.queue);
      if started.pair.None? {
        DrainingDone(c, r);
        return;
      }
      var pair := started.pair.value;
      var (e, err) := EngineWrite(r.engine, pair.key, pair.value);
      WriteOneKeepsDraining(c, r, pair.key);
      ghost var before := r;
      r := Cache(e, BQ.DoneWriting(started.queue, err.None?));
      assert r == WriteOne(before, pair.key);
    }
  }
}
