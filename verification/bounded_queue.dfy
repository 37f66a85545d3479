/**
 The capacity-bounded write queue of interface.go: not a queue but a map of pending
 values with a maximum size, a set of keys whose write was refused or failed, and one
 slot for the pair currently being written to the engine.
 */
module BoundedQueue {
  import opened Wrappers
  import opened Collections

  type Key = string
  type Predicate = Key -> bool

  /** Capacity used when the requested size is not positive. */
  const DEFAULT_SIZE: nat := 100

  datatype Pair<T> = Pair(key: Key, value: Option<T>)

  /** The `(value, found)` pair returned by `Get`. */
  datatype Lookup<T> = Lookup(value: Option<T>, found: bool)

  datatype Queue<T> = Queue(
    values: map<Key, Option<T>>,  // pending values
    writing: Option<Pair<T>>,     // pair being written, if any
    invalid: set<Key>,            // keys refused for lack of room or whose write failed
    size: int)                    // capacity of `values`

  /** The result of `StartWriting`: the new state and the pair to write, if any. */
  datatype Started<T> = Started(queue: Queue<T>, pair: Option<Pair<T>>)

  /** The result of `DeletePredicate`: the new state and the keys it removed. */
  datatype Removed<T> = Removed(queue: Queue<T>, keys: seq<Key>)

  /** The capacity bound every operation keeps. */
  ghost predicate Bounded<T>(q: Queue<T>) {
    0 < q.size && |q.values| <= q.size
  }

  function New<T>(size: int): (q: Queue<T>)
    ensures q.size == (if size <= 0 then DEFAULT_SIZE else size)
    ensures Bounded(q)
    ensures q.values == map[] && q.invalid == {} && q.writing == None
  {
    Queue(map[], None, {}, if size <= 0 then DEFAULT_SIZE else size)
  }

  /** Whether `Enqueue(q, k, _)` stores its value rather than marking `k` invalid. */
  predicate Accepts<T>(q: Queue<T>, k: Key) {
    k in q.values || |q.values| < q.size
  }

  function Enqueue<T>(q: Queue<T>, k: Key, v: Option<T>): (r: Queue<T>)
    ensures Accepts(q, k) ==> r.values == q.values[k := v] && r.invalid == q.invalid - {k}
    ensures !Accepts(q, k) ==> r.values == q.values && r.invalid == q.invalid + {k}
    ensures r.writing == q.writing && r.size == q.size
    ensures Bounded(q) ==> Bounded(r)
  {
    if k !in q.values && |q.values| >= q.size then q.(invalid := q.invalid + {k})
    else q.(values := q.values[k := v], invalid := q.invalid - {k})
  }

  function Get<T>(q: Queue<T>, k: Key): Lookup<T> {
    if k in q.values then Lookup(q.values[k], true)
    else if q.writing.Some? && q.writing.value.key == k then Lookup(q.writing.value.value, true)
    else if k in q.invalid then Lookup(None, true)
    else Lookup(None, false)
  }

  function Delete<T>(q: Queue<T>, k: Key): (r: Queue<T>)
    ensures k !in r.values && k !in r.invalid
    ensures r.writing == q.writing
    ensures Bounded(q) ==> Bounded(r)
    ensures forall k' :: k' != k ==> Get(r, k') == Get(q, k')
  {
    q.(values := q.values - {k}, invalid := q.invalid - {k})
  }

  /** The queue with the keys matching `p` dropped from the pending values and the invalid keys. */
  function Without<T>(q: Queue<T>, p: Predicate): (r: Queue<T>)
    ensures r.values == map k | k in q.values && !p(k) :: q.values[k]
    ensures r.invalid == set k | k in q.invalid && !p(k)
    ensures r.writing == q.writing && r.size == q.size
    ensures Bounded(q) ==> Bounded(r)
  {
    var values := map k | k in q.values && !p(k) :: q.values[k];
    assert values.Keys <= q.values.Keys;
    SubsetCardinality(values.Keys, q.values.Keys);
    q.(values := values, invalid := set k | k in q.invalid && !p(k))
  }

  /** Lists, each once, the keys with a queued value and the invalidated keys that match `p`. */
  method SelectMatching<T>(q: Queue<T>, p: Predicate) returns (fromValues: seq<Key>, fromInvalid: seq<Key>)
    ensures Distinct(fromValues) && (forall k :: k in fromValues <==> k in q.values && p(k))
    ensures Distinct(fromInvalid) && (forall k :: k in fromInvalid <==> k in q.invalid && p(k))
    ensures |fromValues| == |MatchingValues(q, p)| && |fromInvalid| == |MatchingInvalid(q, p)|
  {
    fromValues := Select(q.values.Keys, p);
    fromInvalid := Select(q.invalid, p);
    assert (set k | k in fromValues) == MatchingValues(q, p);
    assert (set k | k in fromInvalid) == MatchingInvalid(q, p);
    DistinctCardinality(fromValues);
    DistinctCardinality(fromInvalid);
  }

  /**
   Removes the keys matching `p` from the pending values and from the invalid keys, and
   lists them: the pending ones first, then the invalid ones, each group in map order.
   */
  method DeletePredicate<T>(q: Queue<T>, p: Predicate) returns (r: Removed<T>)
    ensures r.queue.values == map k | k in q.values && !p(k) :: q.values[k]
    ensures r.queue.invalid == set k | k in q.invalid && !p(k)
    ensures r.queue.writing == q.writing && r.queue.size == q.size
    ensures forall k :: k in r.queue.values || k in r.queue.invalid ==> !p(k)
    ensures Bounded(q) ==> Bounded(r.queue)
    ensures var n := |MatchingValues(q, p)|;
      && |r.keys| == n + |MatchingInvalid(q, p)|
      && Distinct(r.keys[..n]) && (forall k :: k in r.keys[..n] <==> k in q.values && p(k))
      && Distinct(r.keys[n..]) && (forall k :: k in r.keys[n..] <==> k in q.invalid && p(k))
  {
    var fromValues, fromInvalid := SelectMatching(q, p);
    r := Removed(Without(q, p), fromValues + fromInvalid);
    assert r.keys[..|fromValues|] == fromValues;
    assert r.keys[|fromValues|..] == fromInvalid;
  }

  function Count<T>(q: Queue<T>): nat {
    |q.values| + |q.invalid| + (if q.writing.Some? then 1 else 0)
  }

  /** The keys with a queued value that match `p`. */
  function MatchingValues<T>(q: Queue<T>, p: Predicate): set<Key> {
    set k | k in q.values && p(k)
  }

  /** The invalidated keys that match `p`. */
  function MatchingInvalid<T>(q: Queue<T>, p: Predicate): set<Key> {
    set k | k in q.invalid && p(k)
  }

  function CountPredicate<T>(q: Queue<T>, p: Predicate): nat {
    |set k | k in q.values && p(k)| + |set k | k in q.invalid && p(k)|
      + (if q.writing.Some? && p(q.writing.value.key) then 1 else 0)
  }

  function Purge<T>(q: Queue<T>): (r: Queue<T>)
    ensures r.values == map[] && r.invalid == {}
    ensures r.writing == q.writing && r.size == q.size
    ensures Bounded(q) ==> Bounded(r)
  {
    q.(values := map[], invalid := {})
  }

  /**
   Lists the pending keys, then the invalid keys, then the key being written. The listing
   agrees with `Count` and, for every predicate, with `CountPredicate`.
   */
  method Keys<T>(q: Queue<T>) returns (keys: seq<Key>)
    ensures forall k :: k in keys <==>
      k in q.values || k in q.invalid || (q.writing.Some? && q.writing.value.key == k)
    ensures |keys| == Count(q)
    ensures forall p :: CountIn(keys, p) == CountPredicate(q, p)
  {
    var fromValues := Enumerate(q.values.Keys);
    var fromInvalid := Enumerate(q.invalid);
    var current := if q.writing.Some? then [q.writing.value.key] else [];
    keys := fromValues + fromInvalid + current;
    forall p: Predicate ensures CountIn(keys, p) == CountPredicate(q, p) {
      KeysCount(q, fromValues, fromInvalid, current, p);
    }
  }

  /** The matches in a listing built as `Keys` builds it are `CountPredicate`'s. */
  lemma KeysCount<T>(q: Queue<T>, fromValues: seq<Key>, fromInvalid: seq<Key>, current: seq<Key>, p: Predicate)
    requires Distinct(fromValues) && (forall k :: k in fromValues <==> k in q.values)
    requires Distinct(fromInvalid) && (forall k :: k in fromInvalid <==> k in q.invalid)
    requires current == if q.writing.Some? then [q.writing.value.key] else []
    ensures CountIn(fromValues + fromInvalid + current, p) == CountPredicate(q, p)
  {
    CountInConcat(fromValues + fromInvalid, current, p);
    CountInConcat(fromValues, fromInvalid, p);
    CountInDistinct(fromValues, p, set k | k in q.values && p(k));
    CountInDistinct(fromInvalid, p, set k | k in q.invalid && p(k));
    if q.writing.Some? {
      assert current[..0] == [];
    }
  }

  /** Moves one pending pair, chosen in map order, into the writer slot. */
  method StartWriting<T>(q: Queue<T>) returns (r: Started<T>)
    ensures |q.values| == 0 ==> r == Started(q, None)
    ensures |q.values| > 0 ==>
      && r.pair.Some? && r.pair.value.key in q.values
      && r.pair.value.value == q.values[r.pair.value.key]
      && r.queue == q.(values := q.values - {r.pair.value.key}, writing := r.pair)
    ensures Bounded(q) ==> Bounded(r.queue)
    ensures q.writing == None ==> forall k :: Get(r.queue, k) == Get(q, k)
  {
    if |q.values| == 0 {
      return Started(q, None);
    }
    var k :| k in q.values;
    var pair := Pair(k, q.values[k]);
    r := Started(q.(values := q.values - {k}, writing := Some(pair)), Some(pair));
  }

  /** Clears the writer slot; a failed write leaves its key marked invalid. */
  function DoneWriting<T>(q: Queue<T>, ok: bool): (r: Queue<T>)
    ensures r.writing == None && r.values == q.values && r.size == q.size
    ensures r.invalid == if q.writing.Some? && !ok then q.invalid + {q.writing.value.key} else q.invalid
  {
    if q.writing.Some? then
      q.(invalid := if ok then q.invalid else q.invalid + {q.writing.value.key}, writing := None)
    else q
  }
}
