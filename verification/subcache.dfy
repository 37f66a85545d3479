/**
 `CacheWithSubcache`: a backing cache with an L1 subcache in front of it. Reads go through
 the subcache, computing misses from the backing cache; writes go to both tiers; deletes
 go to the backing cache first; listing and purging use the backing cache's keys only.
 */
module CacheWithSubcache {
  import opened Wrappers
  import BQ = BoundedQueue
  import opened CacheFacade
  import CacheFacadeLemmas

  datatype Tiered<T> = Tiered(main: Cache<T>, sub: Cache<T>)

  /** A read's reply together with the tiers it leaves behind. */
  datatype TieredRead<T> = TieredRead(tiers: Tiered<T>, reply: Reply<T>)

  datatype TieredOutcome<T> = TieredOutcome(tiers: Tiered<T>, err: Option<Error>)

  /**
   A subcache hit answers; on any subcache error the backing cache answers, and a value it
   returns is copied into the subcache. The backing cache is never changed.
   */
  function Get<T>(t: Tiered<T>, k: Key): (r: TieredRead<T>)
    ensures r.tiers.main == t.main
    ensures CacheFacade.Get(t.sub, k).err.None? ==> r == TieredRead(t, CacheFacade.Get(t.sub, k))
    ensures CacheFacade.Get(t.sub, k).err.Some? ==> r.reply == CacheFacade.Get(t.main, k)
    ensures CacheFacade.Get(t.sub, k).err.Some? && CacheFacade.Get(t.main, k).err.None? ==>
      r.tiers.sub == CacheFacade.Set(t.sub, k, CacheFacade.Get(t.main, k).value)
    ensures CacheFacade.Get(t.sub, k).err.Some? && CacheFacade.Get(t.main, k).err.Some? ==> r.tiers == t
  {
    var computed := GetOrCompute(t.sub, k, CacheFacade.Get(t.main, k));
    TieredRead(t.(sub := computed.cache), computed.reply)
  }

  /**
   `Peek` as the source writes it, over the source's `Cache.Peek` on both tiers: the
   subcache's answer when it has one, the backing cache's otherwise.
   */
  function PeekAsWritten<T>(t: Tiered<T>, k: Key): (r: Reply<T>)
    ensures CacheFacade.PeekAsWritten(t.sub, k).err.None? ==> r == CacheFacade.PeekAsWritten(t.sub, k)
    ensures CacheFacade.PeekAsWritten(t.sub, k).err.Some? ==> r == CacheFacade.PeekAsWritten(t.main, k)
    ensures r.err != Some(WrongDataType)
  {
    var fromSub := CacheFacade.PeekAsWritten(t.sub, k);
    if fromSub.err.None? then fromSub else CacheFacade.PeekAsWritten(t.main, k)
  }

  /**
   A value the subcache's write loop has stored is invisible to `PeekAsWritten`, which
   answers from the backing cache instead; the corrected `Peek` returns it.
   */
  lemma PeekAsWrittenSkipsSubcache<T>(t: Tiered<T>, drained: Cache<T>, k: Key)
    requires Drained(t.sub, drained) && k in t.sub.queue.values && k !in t.sub.queue.invalid
    requires k !in t.sub.engine.broken && t.sub.queue.values[k].Some?
    ensures Peek(t.(sub := drained), k) == Reply(t.sub.queue.values[k], None)
    ensures PeekAsWritten(t.(sub := drained), k) == CacheFacade.PeekAsWritten(t.main, k)
  {
    CacheFacadeLemmas.PeekAsWrittenMissesDrainedValue(t.sub, drained, k);
  }

  /** The subcache's answer when it has one, the backing cache's otherwise, both read with the corrected `Peek`. */
  function Peek<T>(t: Tiered<T>, k: Key): (r: Reply<T>)
    ensures CacheFacade.Peek(t.sub, k).err.None? ==> r == CacheFacade.Peek(t.sub, k)
    ensures CacheFacade.Peek(t.sub, k).err.Some? ==> r == CacheFacade.Peek(t.main, k)
    ensures r.err != Some(WrongDataType)
    // Unlike `PeekAsWritten`, a value the subcache's `Get` returns is never skipped.
    ensures CacheFacade.Get(t.sub, k).err.None? ==> r == CacheFacade.Get(t.sub, k)
  {
    var fromSub := CacheFacade.Peek(t.sub, k);
    if fromSub.err.None? then fromSub else CacheFacade.Peek(t.main, k)
  }

  /**
   Writes the subcache, then the backing cache. The facade's `Set` never fails, so the
   source's early return on a subcache error cannot be taken.
   */
  function Set<T>(t: Tiered<T>, k: Key, v: Option<T>): (r: Tiered<T>)
    ensures r.main.engine == t.main.engine && r.sub.engine == t.sub.engine
    ensures BQ.Accepts(t.sub.queue, k) && v.Some? ==> Get(r, k) == TieredRead(r, Reply(v, None))
    ensures BQ.Accepts(t.main.queue, k) && v.Some? ==> CacheFacade.Get(r.main, k) == Reply(v, None)
    ensures forall k' :: k' != k ==> Get(r, k').reply == Get(t, k').reply
  {
    Tiered(CacheFacade.Set(t.main, k, v), CacheFacade.Set(t.sub, k, v))
  }

  /** The error a tiered `Delete` of `k` returns: the backing engine's, else the subcache engine's. */
  function DeleteError<T>(t: Tiered<T>, k: Key): Option<Error> {
    if k in t.main.engine.broken then Some(Backend(t.main.engine.broken[k]))
    else if k in t.sub.engine.broken then Some(Backend(t.sub.engine.broken[k]))
    else None
  }

  /** Both tiers read `k` as they did in `t`. */
  ghost predicate ReadsAsBefore<T>(t: Tiered<T>, u: Tiered<T>, k: Key) {
    CacheFacade.Get(u.main, k) == CacheFacade.Get(t.main, k) && CacheFacade.Get(u.sub, k) == CacheFacade.Get(t.sub, k)
  }

  /** Deletes from the backing cache and, only if that succeeded, from the subcache. */
  function Delete<T>(t: Tiered<T>, k: Key): (r: TieredOutcome<T>)
    ensures r.tiers.main == CacheFacade.Delete(t.main, k).cache
    ensures CacheFacade.Delete(t.main, k).err.Some? ==>
      r == TieredOutcome(t.(main := CacheFacade.Delete(t.main, k).cache), CacheFacade.Delete(t.main, k).err)
    ensures CacheFacade.Delete(t.main, k).err.None? ==>
      r == TieredOutcome(Tiered(CacheFacade.Delete(t.main, k).cache, CacheFacade.Delete(t.sub, k).cache),
                         CacheFacade.Delete(t.sub, k).err)
    ensures r.err.None? && !InFlight(t.main, k) && !InFlight(t.sub, k) ==> Get(r.tiers, k) == TieredRead(r.tiers, NotFoundReply())
    ensures r.err.None? ==> Absent(r.tiers.main, k) && Absent(r.tiers.sub, k)
    ensures forall k' :: k' != k && Absent(t.main, k') ==> Absent(r.tiers.main, k')
    ensures forall k' :: k' != k && Absent(t.sub, k') ==> Absent(r.tiers.sub, k')
    ensures forall k' :: k' != k ==> CacheFacade.Get(r.tiers.sub, k') == CacheFacade.Get(t.sub, k')
  {
    CacheDeleteAbsent(t.main, k);
    CacheDeleteAbsent(t.sub, k);
    var fromMain := CacheFacade.Delete(t.main, k);
    if fromMain.err.Some? then TieredOutcome(t.(main := fromMain.cache), fromMain.err)
    else
      var fromSub := CacheFacade.Delete(t.sub, k);
      TieredOutcome(Tiered(fromMain.cache, fromSub.cache), fromSub.err)
  }

  /** The backing cache's keys; keys only the subcache holds are not listed. */
  method Keys<T>(t: Tiered<T>) returns (keys: seq<Key>, err: Option<Error>)
    ensures err == if t.main.engine.keysFault.Some? then Some(Backend(t.main.engine.keysFault.value)) else None
    ensures forall k :: k in keys <==>
      k in t.main.queue.values || k in t.main.queue.invalid || InFlight(t.main, k) || (err.None? && k in t.main.engine.store)
  {
    keys, err := CacheFacade.Keys(t.main);
  }

  /**
   A tiered `Delete` fails exactly when the backing or the subcache engine refuses `k`,
   with the backing engine's error first; it changes no engine's failures and no read of
   another key in either tier.
   */
  lemma DeleteErrorAndFrame<T>(t: Tiered<T>, k: Key)
    ensures Delete(t, k).err == DeleteError(t, k)
    ensures Delete(t, k).tiers.main.engine.broken == t.main.engine.broken
    ensures Delete(t, k).tiers.sub.engine.broken == t.sub.engine.broken
    ensures forall k' :: k' != k ==> ReadsAsBefore(t, Delete(t, k).tiers, k')
  {
    var fromMain := CacheFacade.Delete(t.main, k);
    assert forall k' :: k' != k ==> CacheFacade.Get(fromMain.cache, k') == CacheFacade.Get(t.main, k');
  }

  /** Whether neither the queue nor the engine of `c` holds anything for `k`. */
  ghost predicate Absent<T>(c: Cache<T>, k: Key) {
    k !in c.queue.values && k !in c.queue.invalid && k !in c.engine.store
  }

  /** A successful facade `Delete` leaves its key absent, and never brings back another absent key. */
  lemma CacheDeleteAbsent<T>(c: Cache<T>, k: Key)
    ensures CacheFacade.Delete(c, k).err.None? ==> Absent(CacheFacade.Delete(c, k).cache, k)
    ensures forall k' :: k' != k && Absent(c, k') ==> Absent(CacheFacade.Delete(c, k).cache, k')
  {
    var r := CacheFacade.Delete(c, k);
    assert k !in r.cache.queue.values && k !in r.cache.queue.invalid;
  }

  /**
   What deleting `keys` in order, stopping at the first error, leaves: it fails exactly when
   some listed key's `Delete` fails, and then with the error of the first such key, every
   key before it gone from both tiers and every key not listed up to it read as before; on
   success every listed key is gone and every other key reads as before.
   */
  ghost predicate DeletedInOrder<T>(t: Tiered<T>, keys: seq<Key>, r: TieredOutcome<T>) {
    && (r.err.None? <==> forall j :: 0 <= j < |keys| ==> DeleteError(t, keys[j]).None?)
    && (r.err.None? ==> forall k :: k in keys ==> Absent(r.tiers.main, k) && Absent(r.tiers.sub, k))
    && (r.err.None? ==> forall k :: k !in keys ==> ReadsAsBefore(t, r.tiers, k))
    && (r.err.Some? ==>
          exists i :: 0 <= i < |keys| && r.err == DeleteError(t, keys[i])
            && (forall j :: 0 <= j < i ==> DeleteError(t, keys[j]).None?)
            && (forall j :: 0 <= j < i ==> Absent(r.tiers.main, keys[j]) && Absent(r.tiers.sub, keys[j]))
            && (forall k :: k !in keys[..i + 1] ==> ReadsAsBefore(t, r.tiers, k)))
  }

  /** The loop invariant of `DeleteAll`: the first `i` keys are deleted from both tiers and nothing else moved. */
  ghost predicate DeletedUpTo<T>(t: Tiered<T>, keys: seq<Key>, i: nat, current: Tiered<T>) {
    && i <= |keys|
    && current.main.engine.broken == t.main.engine.broken && current.sub.engine.broken == t.sub.engine.broken
    && (forall j :: 0 <= j < i ==> DeleteError(t, keys[j]).None?)
    && (forall j :: 0 <= j < i ==> Absent(current.main, keys[j]) && Absent(current.sub, keys[j]))
    && (forall k :: k !in keys[..i] ==> ReadsAsBefore(t, current, k))
  }

  /** Whatever `Delete` of the next key returns, it keeps the deleted prefix and moves nothing listed later. */
  lemma DeleteAllFrame<T>(t: Tiered<T>, keys: seq<Key>, i: nat, current: Tiered<T>)
    requires DeletedUpTo(t, keys, i, current) && i < |keys|
    ensures var next := Delete(current, keys[i]).tiers;
      && next.main.engine.broken == t.main.engine.broken && next.sub.engine.broken == t.sub.engine.broken
      && (forall j :: 0 <= j < i ==> Absent(next.main, keys[j]) && Absent(next.sub, keys[j]))
      && (forall k :: k !in keys[..i + 1] ==> ReadsAsBefore(t, next, k))
  {
    DeleteErrorAndFrame(current, keys[i]);
    assert keys[..i + 1] == keys[..i] + [keys[i]];
    assert forall k :: k !in keys[..i + 1] ==> k !in keys[..i] && k != keys[i];
  }

  /** A successful `Delete` of the next key extends the deleted prefix by one. */
  lemma DeleteAllStep<T>(t: Tiered<T>, keys: seq<Key>, i: nat, current: Tiered<T>)
    requires DeletedUpTo(t, keys, i, current) && i < |keys| && Delete(current, keys[i]).err.None?
    ensures DeletedUpTo(t, keys, i + 1, Delete(current, keys[i]).tiers)
  {
    DeleteAllFrame(t, keys, i, current);
    DeleteErrorAndFrame(current, keys[i]);
    var next := Delete(current, keys[i]).tiers;
    assert DeleteError(t, keys[i]).None?;
    assert Absent(next.main, keys[i]) && Absent(next.sub, keys[i]);
  }

  /** A failing `Delete` of the next key ends the loop with that key's error. */
  lemma DeleteAllStops<T>(t: Tiered<T>, keys: seq<Key>, i: nat, current: Tiered<T>)
    requires DeletedUpTo(t, keys, i, current) && i < |keys| && Delete(current, keys[i]).err.Some?
    ensures DeletedInOrder(t, keys, Delete(current, keys[i]))
    ensures forall k :: k !in keys ==> ReadsAsBefore(t, Delete(current, keys[i]).tiers, k)
  {
    DeleteAllFrame(t, keys, i, current);
    DeleteErrorAndFrame(current, keys[i]);
    assert forall k :: k !in keys ==> k !in keys[..i + 1];
  }

  /** Once every key is deleted, the loop ends successfully. */
  lemma DeleteAllDone<T>(t: Tiered<T>, keys: seq<Key>, current: Tiered<T>)
    requires DeletedUpTo(t, keys, |keys|, current)
    ensures DeletedInOrder(t, keys, TieredOutcome(current, None))
    ensures forall k :: k !in keys ==> ReadsAsBefore(t, current, k)
  {
    assert keys[..|keys|] == keys;
  }

  /** Deletes the listed keys in order, through `Delete`, stopping at the first error. */
  method DeleteAll<T>(t: Tiered<T>, keys: seq<Key>) returns (r: TieredOutcome<T>)
    ensures DeletedInOrder(t, keys, r)
    ensures r.err.None? ==> forall k :: k in keys ==> Absent(r.tiers.main, k) && Absent(r.tiers.sub, k)
    ensures forall k :: k !in keys ==> CacheFacade.Get(r.tiers.sub, k) == CacheFacade.Get(t.sub, k)
  {
    var i := 0;
    var current := t;
    while i < |keys|
      invariant DeletedUpTo(t, keys, i, current)
    {
      var deleted := Delete(current, keys[i]);
      if deleted.err.Some? {
        DeleteAllStops(t, keys, i, current);
        return deleted;
      }
      DeleteAllStep(t, keys, i, current);
      current := deleted.tiers;
      i := i + 1;
    }
    DeleteAllDone(t, keys, current);
    r := TieredOutcome(current, None);
  }

  /** A key the backing cache lists when its engine can list its keys. */
  ghost predicate Listed<T>(t: Tiered<T>, k: Key) {
    k in t.main.queue.values || k in t.main.queue.invalid || InFlight(t.main, k) || k in t.main.engine.store
  }

  /**
   Deletes, through `Delete`, every key the backing cache lists, stopping at the first
   error. Keys only the subcache holds survive a successful purge.
   */
  method Purge<T>(t: Tiered<T>) returns (r: TieredOutcome<T>)
    ensures t.main.engine.keysFault.Some? ==> r == TieredOutcome(t, Some(Backend(t.main.engine.keysFault.value)))
    ensures t.main.engine.keysFault.None? ==>
      exists keys :: (forall k :: k in keys <==> Listed(t, k)) && DeletedInOrder(t, keys, r)
    ensures t.main.engine.keysFault.None? ==>
      (r.err.None? <==> forall k :: Listed(t, k) ==> DeleteError(t, k).None?)
    ensures r.err.None? ==> forall k :: k in t.main.queue.values || k in t.main.queue.invalid || k in t.main.engine.store ==>
      Absent(r.tiers.main, k) && Absent(r.tiers.sub, k)
    ensures r.err.None? ==> forall k :: !(k in t.main.queue.values || k in t.main.queue.invalid ||
                                           InFlight(t.main, k) || k in t.main.engine.store) ==>
      CacheFacade.Get(r.tiers.sub, k) == CacheFacade.Get(t.sub, k)
  {
    var keys, err := Keys(t);
    if err.Some? {
      return TieredOutcome(t, err);
    }
    r := DeleteAll(t, keys);
    assert forall k :: k in keys <==> Listed(t, k);
    assert r.err.None? <==> forall k :: k in keys ==> DeleteError(t, k).None?;
  }
}
