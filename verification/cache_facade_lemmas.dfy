/** Properties of the cache facade that relate several calls. */
module CacheFacadeLemmas {
  import opened Wrappers
  import BQ = BoundedQueue
  import opened CacheFacade

  /** More fuel never changes an answer that was reached. */
  lemma {:induction false} GetIndirectFuelMonotone<T>(c: Cache<T>, k: Key, resolver: Option<Option<T> -> Key>,
                                                      fuel: nat, more: nat)
    requires fuel <= more && GetIndirect(c, k, resolver, fuel).Some?
    ensures GetIndirect(c, k, resolver, more) == GetIndirect(c, k, resolver, fuel)
    decreases fuel
  {
    var found := Get(c, k);
    if found.err.None? {
      match NextLink(resolver, found.value, k)
      case None =>
      case Some(link) =>
        GetIndirectFuelMonotone(c, link, resolver, fuel - 1, more - 1);
    }
  }

  /** Two keys whose values link to each other are never resolved, whatever the fuel. */
  lemma {:induction false} GetIndirectTwoCycle<T>(c: Cache<T>, a: Key, b: Key, resolver: Option<Option<T> -> Key>, fuel: nat)
    requires Get(c, a).err.None? && Get(c, b).err.None?
    requires NextLink(resolver, Get(c, a).value, a) == Some(b)
    requires NextLink(resolver, Get(c, b).value, b) == Some(a)
    ensures GetIndirect(c, a, resolver, fuel) == None
    ensures GetIndirect(c, b, resolver, fuel) == None
    decreases fuel
  {
    if fuel > 0 {
      GetIndirectTwoCycle(c, a, b, resolver, fuel - 1);
    }
  }

  /** `k` reaches `target` by following exactly `hops` links, every key on the way reading successfully. */
  ghost predicate LinksTo<T>(c: Cache<T>, k: Key, target: Key, resolver: Option<Option<T> -> Key>, hops: nat)
    decreases hops
  {
    if hops == 0 then k == target
    else
      var found := Get(c, k);
      found.err.None? && NextLink(resolver, found.value, k).Some?
      && LinksTo(c, NextLink(resolver, found.value, k).value, target, resolver, hops - 1)
  }

  /**
   A successful indirect read is the plain read of a key whose value is not a link, reached
   from `k` by following at most `fuel` links.
   */
  lemma {:induction false} GetIndirectEndsAtUnlinked<T>(c: Cache<T>, k: Key, resolver: Option<Option<T> -> Key>, fuel: nat)
    requires GetIndirect(c, k, resolver, fuel).Some? && GetIndirect(c, k, resolver, fuel).value.err.None?
    ensures exists target, hops: nat :: hops <= fuel && LinksTo(c, k, target, resolver, hops)
                                && Get(c, target) == GetIndirect(c, k, resolver, fuel).value
                                && NextLink(resolver, Get(c, target).value, target) == None
    decreases fuel
  {
    var found := Get(c, k);
    match NextLink(resolver, found.value, k)
    case None =>
      assert LinksTo(c, k, k, resolver, 0);
    case Some(link) =>
      assert found.err.None? && fuel > 0;
      GetIndirectEndsAtUnlinked(c, link, resolver, fuel - 1);
      var target, hops: nat :| hops <= fuel - 1 && LinksTo(c, link, target, resolver, hops)
                          && Get(c, target) == GetIndirect(c, link, resolver, fuel - 1).value
                          && NextLink(resolver, Get(c, target).value, target) == None;
      assert LinksTo(c, k, target, resolver, hops + 1);
  }

  /**
   A linked write read back through its link: with room for both keys, a non-nil value
   whose generated link names another non-empty key reads back in one hop.
   */
  lemma SetIndirectLinkedRoundTrip<T>(c: Cache<T>, k: Key, v: Option<T>,
                                      resolver: Option<T> -> Key, generator: Option<T> -> Option<T>)
    requires Valid(c) && |c.queue.values| + 2 <= c.queue.size
    requires v.Some? && generator(v).Some?
    requires |resolver(generator(v))| > 0 && resolver(generator(v)) != k
    requires NextLink(Some(resolver), v, resolver(generator(v))) == None
    ensures GetIndirect(SetIndirect(c, k, v, Some(resolver), Some(generator)), k, Some(resolver), 1) == Some(Reply(v, None))
  {
    var link := resolver(generator(v));
    var linked := Set(c, k, generator(v));
    assert BQ.Accepts(c.queue, k);
    assert |linked.queue.values| <= |c.queue.values| + 1 by {
      assert linked.queue.values.Keys == c.queue.values.Keys + {k};
    }
    assert BQ.Accepts(linked.queue, link);
    var r := Set(linked, link, v);
    assert Get(r, k) == Reply(generator(v), None);
    assert Get(r, link) == Reply(v, None);
  }

  /** An unlinked write of a non-nil, non-link value reads back without following anything. */
  lemma SetIndirectPlainRoundTrip<T>(c: Cache<T>, k: Key, v: Option<T>, resolver: Option<Option<T> -> Key>)
    requires BQ.Accepts(c.queue, k) && v.Some? && NextLink(resolver, v, k) == None
    ensures GetIndirect(SetIndirect(c, k, v, resolver, None), k, resolver, 0) == Some(Reply(v, None))
  {
  }

  /**
   Compute-on-miss runs the evaluator at most once: after a successful computation of a
   non-nil value the queue accepted, the next call is a hit that does not evaluate.
   */
  lemma GetOrComputeComputesOnce<T>(c: Cache<T>, k: Key, eval: Reply<T>, again: Reply<T>)
    requires Get(c, k).err.Some? && eval.err.None? && eval.value.Some? && BQ.Accepts(c.queue, k)
    ensures var first := GetOrCompute(c, k, eval);
      && first.evaluated
      && GetOrCompute(first.cache, k, again) == Computed(first.cache, Reply(eval.value, None), false)
  {
  }

  /**
   After one write-loop pass, a key that was pending (and not also marked invalid) reads the
   engine: the stored value, `(nil, nil)` for a nil value, or NotFound if the engine refused
   the write.
   */
  lemma GetAfterDrain<T>(c: Cache<T>, r: Cache<T>, k: Key)
    requires Drained(c, r) && k in c.queue.values && k !in c.queue.invalid
    ensures Get(r, k) == if k in c.engine.broken then NotFoundReply() else Reply(c.queue.values[k], None)
  {
    assert r.queue.writing == None;
    if k !in c.engine.broken {
      assert k !in r.queue.invalid;
      assert r.engine.store[k] == Pointer(c.queue.values[k]);
    } else {
      assert k in r.queue.invalid;
    }
  }

  /**
   The source's `Peek` misses every value the write loop has stored: after a pass, a pending
   non-nil value reads back through `Get` and the corrected `Peek` but not through
   `PeekAsWritten`.
   */
  lemma PeekAsWrittenMissesDrainedValue<T>(c: Cache<T>, r: Cache<T>, k: Key)
    requires Drained(c, r) && k in c.queue.values && k !in c.queue.invalid && k !in c.engine.broken
    requires c.queue.values[k].Some?
    ensures Get(r, k) == Reply(c.queue.values[k], None)
    ensures Peek(r, k) == Get(r, k)
    ensures PeekAsWritten(r, k) == NotFoundReply()
  {
    GetAfterDrain(c, r, k);
    assert r.engine.store[k] == Pointer(c.queue.values[k]);
  }

  /** A key left untouched by the pass reads as before when nothing was being written. */
  lemma DrainKeepsOtherReads<T>(c: Cache<T>, r: Cache<T>, k: Key)
    requires Drained(c, r) && k !in c.queue.values && c.queue.writing == None
    ensures Get(r, k) == Get(c, k)
  {
    assert r.queue.writing == None;
    assert k in r.queue.invalid <==> k in c.queue.invalid;
    assert EngineGet(r.engine, k) == EngineGet(c.engine, k);
  }

  /**
   A write the engine refused is not retried: a second pass writes nothing, and the key
   keeps reading NotFound.
   */
  lemma FailedWriteNotRetried<T>(c: Cache<T>, r1: Cache<T>, r2: Cache<T>, k: Key)
    requires Drained(c, r1) && Drained(r1, r2)
    requires k in c.queue.values && k in c.engine.broken
    ensures r2.engine == r1.engine
    ensures Get(r2, k) == NotFoundReply()
  {
    assert (map k' | k' in r1.queue.values && k' !in r1.engine.broken :: Pointer(r1.queue.values[k'])) == map[];
    assert k in r1.queue.invalid;
  }
}
