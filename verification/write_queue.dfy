/**
 The coalescing write-behind queue of write_queue.go: a FIFO log of pending mutations
 (set, delete, delete-by-predicate, purge) plus an overlay map of values not yet written,
 drained one operation at a time through the StartWriting/DoneWriting protocol.

 Go compares operations and stored values by pointer. Here every operation carries a
 fresh `id`, and every overlay entry is tagged with the id of the Set that wrote it, so
 those pointer comparisons become id comparisons.
 */
module WriteQueue {
  import opened Wrappers
  import opened Collections

  type Key = string

  /** A key predicate; total, as every Go `Predicate` that returns is. */
  type Predicate = Key -> bool

  /** A queued mutation. */
  datatype Op<T> =
    | SetOp(id: nat, key: Key, value: Option<T>)
    | DeleteOp(id: nat, key: Key)
    | DeletePredicateOp(id: nat, pred: Predicate)
    | PurgeOp(id: nat)
  {
    /** The operations that implement `GetKey`. */
    predicate Keyed() {
      SetOp? || DeleteOp?
    }

    /** Whether this operation makes `k` logically absent or overwritten. */
    predicate IncludesKey(k: Key) {
      match this
      case SetOp(_, key, _) => key == k
      case DeleteOp(_, key) => key == k
      case DeletePredicateOp(_, pred) => pred(k)
      case PurgeOp(_) => true
    }

    /** Whether appending this operation makes the queued `other` redundant. */
    predicate Includes(other: Op<T>) {
      if PurgeOp? then true
      else other.Keyed() && IncludesKey(other.key)
    }
  }

  /** An overlay value together with the id of the Set operation that stored it. */
  datatype Entry<T> = Entry(setId: nat, value: Option<T>)

  /** The `(value, found)` pair returned by `Get`. */
  datatype Lookup<T> = Lookup(value: Option<T>, found: bool)

  datatype Queue<T> = Queue(
    ops: seq<Op<T>>,              // pending operations, oldest first
    values: map<Key, Entry<T>>,   // overlay of values not yet written
    writing: Option<Op<T>>,       // operation handed to the writer, if any
    nextId: nat)                  // id of the next operation created

  /** The result of `StartWriting`: the new state and the operation to write, if any. */
  datatype Started<T> = Started(queue: Queue<T>, op: Option<Op<T>>)

  // ---------------------------------------------------------------------------
  // The invariant every mutator keeps

  /** Two queued operations never share an id, nor both carry the same key. */
  ghost predicate Apart<T(!new)>(x: Op<T>, y: Op<T>) {
    x.id != y.id && (x.Keyed() && y.Keyed() ==> x.key != y.key)
  }

  ghost predicate PairwiseApart<T(!new)>(ops: seq<Op<T>>) {
    forall i, j :: 0 <= i < j < |ops| ==> Apart(ops[i], ops[j])
  }

  /** The overlay holds `k -> v` exactly when a Set of `k` to `v` is queued. */
  ghost predicate OverlayMatchesLog<T(!new)>(q: Queue<T>) {
    && (forall k :: k in q.values ==> SetOp(q.values[k].setId, k, q.values[k].value) in q.ops)
    && (forall x :: x in q.ops && x.SetOp? ==> x.key in q.values && q.values[x.key] == Entry(x.id, x.value))
  }

  ghost predicate Valid<T(!new)>(q: Queue<T>) {
    && (forall x :: x in q.ops ==> x.id < q.nextId)
    && PairwiseApart(q.ops)
    && OverlayMatchesLog(q)
  }

  // ---------------------------------------------------------------------------
  // Operations

  function New<T(!new)>(): (q: Queue<T>)
    ensures Valid(q)
    ensures q.ops == [] && q.values == map[] && q.writing == None
  {
    Queue([], map[], None, 0)
  }

  /** The queue with every operation that `op` includes dropped, order otherwise kept. */
  function RemoveOverridden<T(!new)>(ops: seq<Op<T>>, op: Op<T>): (r: seq<Op<T>>)
    ensures forall x :: x in r <==> x in ops && !op.Includes(x)
  {
    if |ops| == 0 then []
    else
      var last := ops[|ops| - 1];
      var kept := RemoveOverridden(ops[..|ops| - 1], op);
      assert ops == ops[..|ops| - 1] + [last];
      if op.Includes(last) then kept else kept + [last]
  }

  /** The survivors keep their original relative order. */
  lemma {:induction false} RemoveOverriddenInOrder<T(!new)>(ops: seq<Op<T>>, op: Op<T>)
    ensures IsSubsequence(RemoveOverridden(ops, op), ops)
  {
    if |ops| > 0 {
      var init := ops[..|ops| - 1];
      var last := ops[|ops| - 1];
      RemoveOverriddenInOrder(init, op);
      var kept := RemoveOverridden(init, op);
      if op.Includes(last) {
        assert |kept| > 0 ==> kept[|kept| - 1] != last by {
          if |kept| > 0 {
            assert kept[|kept| - 1] in kept;
          }
        }
      } else {
        assert (kept + [last])[..|kept|] == kept;
      }
    }
  }

  /** One more queued operation extends the survivors by it unless `op` includes it. */
  lemma RemoveOverriddenSnoc<T(!new)>(ops: seq<Op<T>>, j: nat, op: Op<T>)
    requires j < |ops|
    ensures RemoveOverridden(ops[..j + 1], op)
         == RemoveOverridden(ops[..j], op) + (if op.Includes(ops[j]) then [] else [ops[j]])
  {
    assert ops[..j + 1][..j] == ops[..j];
  }

  /**
   One step of an in-place filter: in `done + [x] + rest` with the cursor at `|done|`,
   removing `x` or stepping over it leaves `next + rest`, where `next` is `done` extended
   by `x` unless `x` was dropped.
   */
  lemma SpliceStep<X>(done: seq<X>, x: X, rest: seq<X>, next: seq<X>, dropped: bool)
    requires next == if dropped then done else done + [x]
    ensures var q := done + ([x] + rest);
      && q[|done|] == x
      && (dropped ==> |next| == |done| && q[..|done|] + q[|done| + 1..] == next + rest)
      && (!dropped ==> |next| == |done| + 1 && q == next + rest)
  {
    var q := done + ([x] + rest);
    assert q[..|done|] == done;
    assert q[|done| + 1..] == rest;
  }

  /** `SpliceStep` for the survivors of `ops[..j]` followed by `ops[j..]`, the loop's state. */
  lemma RemoveOverriddenStep<T(!new)>(ops: seq<Op<T>>, j: nat, op: Op<T>, q: seq<Op<T>>, i: nat)
    requires j < |ops| && i == |RemoveOverridden(ops[..j], op)|
    requires q == RemoveOverridden(ops[..j], op) + ops[j..]
    ensures i < |q| && q[i] == ops[j]
    ensures op.Includes(ops[j]) ==>
      i == |RemoveOverridden(ops[..j + 1], op)| && q[..i] + q[i + 1..] == RemoveOverridden(ops[..j + 1], op) + ops[j + 1..]
    ensures !op.Includes(ops[j]) ==>
      i + 1 == |RemoveOverridden(ops[..j + 1], op)| && q == RemoveOverridden(ops[..j + 1], op) + ops[j + 1..]
  {
    RemoveOverriddenSnoc(ops, j, op);
    assert ops[j..] == [ops[j]] + ops[j + 1..];
    SpliceStep(RemoveOverridden(ops[..j], op), ops[j], ops[j + 1..],
               RemoveOverridden(ops[..j + 1], op), op.Includes(ops[j]));
  }

  /** The in-place index loop of `removeOverridden`: removing at `i`, else advancing. */
  method RemoveOverriddenInPlace<T(!new)>(ops: seq<Op<T>>, op: Op<T>) returns (q: seq<Op<T>>)
    ensures q == RemoveOverridden(ops, op)
  {
    q := ops;
    var i := 0;
    ghost var j := 0;
    assert ops[..0] == [] && ops[0..] == ops;
    while i < |q|
      invariant 0 <= j <= |ops|
      invariant i == |RemoveOverridden(ops[..j], op)|
      invariant q == RemoveOverridden(ops[..j], op) + ops[j..]
      decreases |ops| - j
    {
      RemoveOverriddenStep(ops, j, op, q, i);
      if op.Includes(q[i]) {
        q := q[..i] + q[i + 1..];
      } else {
        i := i + 1;
      }
      j := j + 1;
    }
    assert ops[..j] == ops;
  }

  /** Whether some queued operation includes `k`: the scan over the queue in `Get`. */
  function AnyIncludesKey<T(!new)>(ops: seq<Op<T>>, k: Key): (b: bool)
    ensures b <==> exists i :: 0 <= i < |ops| && ops[i].IncludesKey(k)
  {
    if |ops| == 0 then false
    else ops[0].IncludesKey(k) || AnyIncludesKey(ops[1..], k)
  }

  function Get<T(!new)>(q: Queue<T>, k: Key): (r: Lookup<T>)
    ensures k in q.values ==> r == Lookup(q.values[k].value, true)
    ensures k !in q.values ==> r.value == None
    ensures k !in q.values ==> (r.found <==> exists i :: 0 <= i < |q.ops| && q.ops[i].IncludesKey(k))
  {
    if k in q.values then Lookup(q.values[k].value, true)
    else Lookup(None, AnyIncludesKey(q.ops, k))
  }

  /** Appends `op` after dropping the operations it overrides. */
  function Append<T(!new)>(q: Queue<T>, op: Op<T>): (r: Queue<T>)
    ensures |r.ops| > 0 && r.ops[|r.ops| - 1] == op
    ensures r.ops[..|r.ops| - 1] == RemoveOverridden(q.ops, op)
    ensures IsSubsequence(r.ops[..|r.ops| - 1], q.ops)
    ensures r.values == q.values && r.writing == q.writing && r.nextId == q.nextId + 1
  {
    var kept := RemoveOverridden(q.ops, op);
    RemoveOverriddenInOrder(q.ops, op);
    assert (kept + [op])[..|kept|] == kept;
    q.(ops := kept + [op], nextId := q.nextId + 1)
  }

  function Set<T(!new)>(q: Queue<T>, k: Key, v: Option<T>): (r: Queue<T>)
    ensures |r.ops| > 0 && r.ops[|r.ops| - 1] == SetOp(q.nextId, k, v)
    ensures forall x :: x in r.ops[..|r.ops| - 1] <==> x in q.ops && !(x.Keyed() && x.key == k)
    ensures IsSubsequence(r.ops[..|r.ops| - 1], q.ops)
    ensures r.values.Keys == q.values.Keys + {k} && r.values[k] == Entry(q.nextId, v)
    ensures forall k' :: k' in q.values && k' != k ==> r.values[k'] == q.values[k']
    ensures r.writing == q.writing && r.nextId == q.nextId + 1
  {
    Append(q, SetOp(q.nextId, k, v)).(values := q.values[k := Entry(q.nextId, v)])
  }

  function Delete<T(!new)>(q: Queue<T>, k: Key): (r: Queue<T>)
    ensures |r.ops| > 0 && r.ops[|r.ops| - 1] == DeleteOp(q.nextId, k)
    ensures forall x :: x in r.ops[..|r.ops| - 1] <==> x in q.ops && !(x.Keyed() && x.key == k)
    ensures IsSubsequence(r.ops[..|r.ops| - 1], q.ops)
    ensures r.values == q.values - {k}
    ensures r.writing == q.writing && r.nextId == q.nextId + 1
  {
    Append(q, DeleteOp(q.nextId, k)).(values := q.values - {k})
  }

  function DeletePredicate<T(!new)>(q: Queue<T>, p: Predicate): (r: Queue<T>)
    ensures |r.ops| > 0 && r.ops[|r.ops| - 1] == DeletePredicateOp(q.nextId, p)
    ensures forall x :: x in r.ops[..|r.ops| - 1] <==> x in q.ops && !(x.Keyed() && p(x.key))
    ensures IsSubsequence(r.ops[..|r.ops| - 1], q.ops)
    ensures forall k :: k in r.values <==> k in q.values && !p(k)
    ensures forall k :: k in r.values ==> r.values[k] == q.values[k]
    ensures r.writing == q.writing && r.nextId == q.nextId + 1
  {
    Append(q, DeletePredicateOp(q.nextId, p)).(values := map k | k in q.values && !p(k) :: q.values[k])
  }

  function Purge<T(!new)>(q: Queue<T>): (r: Queue<T>)
    ensures r.ops == [PurgeOp(q.nextId)] && r.values == map[]
    ensures r.writing == q.writing && r.nextId == q.nextId + 1
  {
    Queue([PurgeOp(q.nextId)], map[], q.writing, q.nextId + 1)
  }

  function Count<T(!new)>(q: Queue<T>): nat {
    |q.values|
  }

  /** `GetStats`: the number of queued operations and of overlay values. */
  function GetStats<T(!new)>(q: Queue<T>): (nat, nat) {
    (|q.ops|, |q.values|)
  }

  method CountPredicate<T(!new)>(q: Queue<T>, p: Predicate) returns (count: nat)
    ensures count == |set k | k in q.values && p(k)|
    ensures count <= Count(q)
  {
    var keys := Enumerate(q.values.Keys);
    count := 0;
    var i := 0;
    while i < |keys|
      invariant 0 <= i <= |keys|
      invariant count == CountIn(keys[..i], p)
    {
      assert keys[..i + 1][..i] == keys[..i];
      if p(keys[i]) {
        count := count + 1;
      }
      i := i + 1;
    }
    assert keys[..i] == keys;
    var matching := set k | k in q.values && p(k);
    CountInDistinct(keys, p, matching);
    SubsetCardinality(matching, q.values.Keys);
  }

  method Keys<T(!new)>(q: Queue<T>) returns (keys: seq<Key>)
    ensures Distinct(keys)
    ensures forall k :: k in keys <==> k in q.values
    ensures |keys| == Count(q)
  {
    keys := Enumerate(q.values.Keys);
  }

  /** Hands the oldest operation to the writer without removing it. */
  function StartWriting<T(!new)>(q: Queue<T>): (r: Started<T>)
    requires q.writing == None   // the source panics when a write is already in progress
    ensures |q.ops| == 0 ==> r == Started(q, None)
    ensures |q.ops| > 0 ==> r.op == Some(q.ops[0]) && r.queue == q.(writing := Some(q.ops[0]))
  {
    if |q.ops| == 0 then Started(q, None)
    else Started(q.(writing := Some(q.ops[0])), Some(q.ops[0]))
  }

  /**
   Completes the write started by `StartWriting`. On success the front is popped if it is
   still the operation being written, and a written Set clears its overlay entry unless that
   entry has since been overwritten. The writer slot is cleared either way.
   */
  function DoneWriting<T(!new)>(q: Queue<T>, ok: bool): (r: Queue<T>)
    ensures r.writing == None && r.nextId == q.nextId
    ensures !ok ==> r == q.(writing := None)
    ensures q.writing.Some? && (forall x :: x in q.ops ==> x.id != q.writing.value.id) ==> r == q.(writing := None)
    ensures ok && |q.ops| > 0 && q.writing == Some(q.ops[0]) ==> r.ops == q.ops[1..]
  {
    if ok && |q.ops| > 0 && q.writing.Some? && q.ops[0].id == q.writing.value.id then
      var front := q.ops[0];
      var values :=
        if front.SetOp? && front.key in q.values && q.values[front.key].setId == front.id
        then q.values - {front.key}
        else q.values;
      Queue(q.ops[1..], values, None, q.nextId)
    else
      q.(writing := None)
  }
}
