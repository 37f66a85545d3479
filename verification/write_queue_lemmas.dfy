/**
 Properties of the coalescing write-behind queue: every mutator keeps the overlay in step
 with the log, reads answer from the overlay or the log, and the writer drains in FIFO order.
 */
module WriteQueueLemmas {
  import opened Wrappers
  import opened Collections
  import opened WriteQueue

  // ---------------------------------------------------------------------------
  // Coalescing keeps the log well formed

  lemma {:induction false} RemoveOverriddenKeepsApart<T(!new)>(ops: seq<Op<T>>, op: Op<T>)
    requires PairwiseApart(ops)
    ensures PairwiseApart(RemoveOverridden(ops, op))
  {
    if |ops| > 0 {
      var init, last := ops[..|ops| - 1], ops[|ops| - 1];
      assert PairwiseApart(init) by {
        forall i, j | 0 <= i < j < |init| ensures Apart(init[i], init[j]) {
          assert init[i] == ops[i] && init[j] == ops[j];
        }
      }
      RemoveOverriddenKeepsApart(init, op);
      var kept := RemoveOverridden(init, op);
      if !op.Includes(last) {
        forall x | x in kept ensures Apart(x, last) {
          var i :| 0 <= i < |init| && init[i] == x;
          assert ops[i] == x;
        }
        AppendKeepsApart(kept, last);
      }
    }
  }

  lemma AppendKeepsApart<T(!new)>(s: seq<Op<T>>, y: Op<T>)
    requires PairwiseApart(s)
    requires forall x :: x in s ==> Apart(x, y)
    ensures PairwiseApart(s + [y])
  {
    var t := s + [y];
    forall i, j | 0 <= i < j < |t| ensures Apart(t[i], t[j]) {
      if j == |s| {
        assert t[i] in s;
      } else {
        assert t[i] == s[i] && t[j] == s[j];
      }
    }
  }

  /** Appending a fresh operation that overrides every queued operation on its own key. */
  lemma AppendKeepsLog<T(!new)>(q: Queue<T>, op: Op<T>)
    requires Valid(q) && op.id == q.nextId
    ensures var r := Append(q, op);
      && (forall x :: x in r.ops ==> x.id < r.nextId)
      && PairwiseApart(r.ops)
  {
    var kept := RemoveOverridden(q.ops, op);
    RemoveOverriddenKeepsApart(q.ops, op);
    forall x | x in kept ensures Apart(x, op) {
      assert x in q.ops;
    }
    AppendKeepsApart(kept, op);
  }

  // ---------------------------------------------------------------------------
  // Every mutator keeps the invariant

  lemma SetPreservesValid<T(!new)>(q: Queue<T>, k: Key, v: Option<T>)
    requires Valid(q)
    ensures Valid(Set(q, k, v))
  {
    var op := SetOp(q.nextId, k, v);
    AppendKeepsLog(q, op);
    var r := Set(q, k, v);
    var kept := RemoveOverridden(q.ops, op);
    assert r.ops == kept + [op];
    forall k' | k' in r.values
      ensures SetOp(r.values[k'].setId, k', r.values[k'].value) in r.ops
    {
      if k' != k {
        assert SetOp(q.values[k'].setId, k', q.values[k'].value) in kept;
      }
    }
    forall x | x in r.ops && x.SetOp?
      ensures x.key in r.values && r.values[x.key] == Entry(x.id, x.value)
    {
      if x != op {
        assert x in kept;
      }
    }
  }

  lemma DeletePreservesValid<T(!new)>(q: Queue<T>, k: Key)
    requires Valid(q)
    ensures Valid(Delete(q, k))
  {
    var op: Op<T> := DeleteOp(q.nextId, k);
    AppendKeepsLog(q, op);
    var r := Delete(q, k);
    var kept := RemoveOverridden(q.ops, op);
    assert r.ops == kept + [op];
    forall k' | k' in r.values
      ensures SetOp(r.values[k'].setId, k', r.values[k'].value) in r.ops
    {
      assert SetOp(q.values[k'].setId, k', q.values[k'].value) in kept;
    }
    forall x | x in r.ops && x.SetOp?
      ensures x.key in r.values && r.values[x.key] == Entry(x.id, x.value)
    {
      assert x in kept;
    }
  }

  lemma DeletePredicatePreservesValid<T(!new)>(q: Queue<T>, p: Predicate)
    requires Valid(q)
    ensures Valid(DeletePredicate(q, p))
  {
    var op: Op<T> := DeletePredicateOp(q.nextId, p);
    AppendKeepsLog(q, op);
    var r := DeletePredicate(q, p);
    var kept := RemoveOverridden(q.ops, op);
    assert r.ops == kept + [op];
    forall k' | k' in r.values
      ensures SetOp(r.values[k'].setId, k', r.values[k'].value) in r.ops
    {
      assert SetOp(q.values[k'].setId, k', q.values[k'].value) in kept;
    }
    forall x | x in r.ops && x.SetOp?
      ensures x.key in r.values && r.values[x.key] == Entry(x.id, x.value)
    {
      assert x in kept;
    }
  }

  lemma PurgePreservesValid<T(!new)>(q: Queue<T>)
    requires Valid(q)
    ensures Valid(Purge(q))
  {
  }

  lemma DoneWritingPreservesValid<T(!new)>(q: Queue<T>, ok: bool)
    requires Valid(q)
    ensures Valid(DoneWriting(q, ok))
  {
    var r := DoneWriting(q, ok);
    if r.ops != q.ops {
      var front := q.ops[0];
      assert r.ops == q.ops[1..];
      forall x | x in r.ops ensures x.id < r.nextId && Apart(front, x) {
        var i :| 0 <= i < |r.ops| && r.ops[i] == x;
        assert q.ops[i + 1] == x;
      }
      forall k' | k' in r.values
        ensures SetOp(r.values[k'].setId, k', r.values[k'].value) in r.ops
      {
        var y := SetOp(q.values[k'].setId, k', q.values[k'].value);
        var i :| 0 <= i < |q.ops| && q.ops[i] == y;
        assert i != 0;
        assert r.ops[i - 1] == y;
      }
      forall x | x in r.ops && x.SetOp?
        ensures x.key in r.values && r.values[x.key] == Entry(x.id, x.value)
      {
        assert x in q.ops;
      }
    }
  }

  // ---------------------------------------------------------------------------
  // Reads

  /** In a valid queue the overlay never answers for a key the log does not mention. */
  lemma GetFoundIffLogged<T(!new)>(q: Queue<T>, k: Key)
    requires Valid(q)
    ensures Get(q, k).found <==> exists i :: 0 <= i < |q.ops| && q.ops[i].IncludesKey(k)
    ensures Get(q, k).found && Get(q, k).value.Some? ==>
      exists i :: 0 <= i < |q.ops| && q.ops[i].SetOp? && q.ops[i].key == k && q.ops[i].value == Get(q, k).value
  {
    if k in q.values {
      var y := SetOp(q.values[k].setId, k, q.values[k].value);
      var i :| 0 <= i < |q.ops| && q.ops[i] == y;
      assert q.ops[i].IncludesKey(k);
    }
  }

  /** The keys the Set and Delete operations of a log carry. */
  ghost function KeyedKeys<T(!new)>(ops: seq<Op<T>>): set<Key> {
    if |ops| == 0 then {}
    else KeyedKeys(ops[..|ops| - 1]) + (if ops[|ops| - 1].Keyed() then {ops[|ops| - 1].key} else {})
  }

  lemma {:induction false} KeyedKeysBounded<T(!new)>(ops: seq<Op<T>>)
    ensures |KeyedKeys(ops)| <= |ops|
    ensures forall x :: x in ops && x.Keyed() ==> x.key in KeyedKeys(ops)
  {
    if |ops| > 0 {
      var init := ops[..|ops| - 1];
      KeyedKeysBounded(init);
      assert ops == init + [ops[|ops| - 1]];
      var last := ops[|ops| - 1];
      if last.Keyed() {
        assert |KeyedKeys(init) + {last.key}| <= |KeyedKeys(init)| + 1;
      }
    }
  }

  /**
   `GetStats`: in a valid queue there are never more overlay values than queued operations,
   since each value is backed by its own queued Set.
   */
  lemma OverlayNoLargerThanLog<T(!new)>(q: Queue<T>)
    requires Valid(q)
    ensures GetStats(q).1 <= GetStats(q).0
    ensures GetStats(q).1 == Count(q)
  {
    KeyedKeysBounded(q.ops);
    forall k | k in q.values ensures k in KeyedKeys(q.ops) {
      assert SetOp(q.values[k].setId, k, q.values[k].value) in q.ops;
    }
    SubsetCardinality(q.values.Keys, KeyedKeys(q.ops));
  }

  /**
   When the operations dropped by coalescing and the one appended all leave `k` alone,
   the log marks `k` exactly as before.
   */
  lemma MarksUnchanged<T(!new)>(before: seq<Op<T>>, after: seq<Op<T>>, dropped: Op<T> -> bool, k: Key)
    requires |after| > 0
    requires forall x :: x in after[..|after| - 1] <==> x in before && !dropped(x)
    requires forall x :: x in before && dropped(x) ==> !x.IncludesKey(k)
    requires !after[|after| - 1].IncludesKey(k)
    ensures AnyIncludesKey(after, k) == AnyIncludesKey(before, k)
  {
    var init := after[..|after| - 1];
    if i :| 0 <= i < |after| && after[i].IncludesKey(k) {
      assert after[i] in init;
      assert after[i] in before;
    }
    if j :| 0 <= j < |before| && before[j].IncludesKey(k) {
      assert before[j] in before;
      assert before[j] in init;
      var i :| 0 <= i < |init| && init[i] == before[j];
      assert after[i] == before[j];
    }
  }

  /** Read-your-writes, and a Set changes no other key's read. */
  lemma GetAfterSet<T(!new)>(q: Queue<T>, k: Key, v: Option<T>, k': Key)
    ensures Get(Set(q, k, v), k) == Lookup(v, true)
    ensures k' != k ==> Get(Set(q, k, v), k') == Get(q, k')
  {
    if k' != k {
      MarksUnchanged(q.ops, Set(q, k, v).ops, (x: Op<T>) => x.Keyed() && x.key == k, k');
    }
  }

  /** A deleted key reads as logically absent; no other key's read changes. */
  lemma GetAfterDelete<T(!new)>(q: Queue<T>, k: Key, k': Key)
    ensures Get(Delete(q, k), k) == Lookup(None, true)
    ensures k' != k ==> Get(Delete(q, k), k') == Get(q, k')
  {
    var r := Delete(q, k);
    assert r.ops[|r.ops| - 1].IncludesKey(k);
    if k' != k {
      MarksUnchanged(q.ops, r.ops, (x: Op<T>) => x.Keyed() && x.key == k, k');
    }
  }

  /** Matching keys read as logically absent, even after an undrained Set; others are unchanged. */
  lemma GetAfterDeletePredicate<T(!new)>(q: Queue<T>, p: Predicate, k: Key)
    ensures p(k) ==> Get(DeletePredicate(q, p), k) == Lookup(None, true)
    ensures !p(k) ==> Get(DeletePredicate(q, p), k) == Get(q, k)
  {
    var r := DeletePredicate(q, p);
    if p(k) {
      assert r.ops[|r.ops| - 1].IncludesKey(k);
    } else {
      MarksUnchanged(q.ops, r.ops, (x: Op<T>) => x.Keyed() && p(x.key), k);
    }
  }

  /** After a purge the queue holds only the purge and every key reads as logically absent. */
  lemma GetAfterPurge<T(!new)>(q: Queue<T>, k: Key)
    ensures |Purge(q).ops| == 1 && Purge(q).ops[0].PurgeOp?
    ensures Get(Purge(q), k) == Lookup(None, true)
  {
    assert Purge(q).ops[0].IncludesKey(k);
  }

  // ---------------------------------------------------------------------------
  // The drain protocol

  /**
   One successful drain step hands out the oldest operation and pops exactly it, clearing
   a written Set's overlay entry; a failed step leaves the queue as it was.
   */
  lemma DrainStep<T(!new)>(q: Queue<T>)
    requires Valid(q) && q.writing == None && |q.ops| > 0
    ensures StartWriting(q).op == Some(q.ops[0])
    ensures var r := DoneWriting(StartWriting(q).queue, true);
      && Valid(r)
      && r.ops == q.ops[1..]
      && r.values == (if q.ops[0].SetOp? then q.values - {q.ops[0].key} else q.values)
    ensures DoneWriting(StartWriting(q).queue, false) == q
  {
    var s := StartWriting(q);
    DoneWritingPreservesValid(s.queue, true);
    var front := q.ops[0];
    if front.SetOp? {
      assert front in q.ops;
    }
  }

  /** Draining a queue with no concurrent writes applies every queued operation, oldest first. */
  method DrainAll<T(!new)>(q: Queue<T>) returns (written: seq<Op<T>>, r: Queue<T>)
    requires q.writing == None
    ensures written == q.ops
    ensures r.ops == [] && r.writing == None
    ensures Valid(q) ==> Valid(r) && r.values == map[]
  {
    written := [];
    r := q;
    while true
      invariant r.writing == None
      invariant written + r.ops == q.ops
      invariant Valid(q) ==> Valid(r)
      decreases |r.ops|
    {
      var started := StartWriting(r);
      if started.op == None {
        break;
      }
      if Valid(q) {
        DrainStep(r);
      }
      assert written + [r.ops[0]] + r.ops[1..] == q.ops;
      written := written + [started.op.value];
      r := DoneWriting(started.queue, true);
    }
  }
}
