/**
 Reconciliation of the per-item results of a remote call: every result is
 logged as a failure when its `error()` accessor yields a descriptor and as a
 success (its `data()`) otherwise. Nothing aborts the loop and nothing is
 retried, so every item is classified.
 */
module Reconcile {
  import opened Text

  /** One item's result as the host SDK hands it over: an optional error
      descriptor and the success payload. */
  datatype ItemResult<E, D> = ItemResult(error: Option<E>, data: D)

  /** What reconciliation records for one item. */
  datatype Outcome<E, D> = Failed(reason: E) | Succeeded(payload: D)

  /** `if (res.error()) console.error(...) else console.log(res.data())`. */
  function Classify<E, D>(res: ItemResult<E, D>): (o: Outcome<E, D>)
    ensures o.Failed? <==> res.error.Some?
    ensures o.Failed? ==> o.reason == res.error.value
    ensures o.Succeeded? ==> o.payload == res.data
  {
    match res.error
    case Some(e) => Failed(e)
    case None => Succeeded(res.data)
  }

  /** The `forEach` over the results, in the order they are enumerated. */
  function ReconcileAll<E, D>(results: seq<ItemResult<E, D>>): (log: seq<Outcome<E, D>>)
    ensures |log| == |results|
    ensures forall i :: 0 <= i < |results| ==> log[i] == Classify(results[i])
    decreases |results|
  {
    if |results| == 0 then [] else [Classify(results[0])] + ReconcileAll(results[1..])
  }

  function CountFailed<E, D>(log: seq<Outcome<E, D>>): nat
    decreases |log|
  {
    if |log| == 0 then 0 else (if log[0].Failed? then 1 else 0) + CountFailed(log[1..])
  }

  function CountSucceeded<E, D>(log: seq<Outcome<E, D>>): nat
    decreases |log|
  {
    if |log| == 0 then 0 else (if log[0].Succeeded? then 1 else 0) + CountSucceeded(log[1..])
  }

  /** Every logged item is in exactly one class. */
  lemma {:induction false} CountsPartition<E, D>(log: seq<Outcome<E, D>>)
    ensures CountFailed(log) + CountSucceeded(log) == |log|
    decreases |log|
  {
    if |log| > 0 {
      CountsPartition(log[1..]);
    }
  }

  lemma {:induction false} CountFailedAppend<E, D>(a: seq<Outcome<E, D>>, b: seq<Outcome<E, D>>)
    ensures CountFailed(a + b) == CountFailed(a) + CountFailed(b)
    decreases |a|
  {
    if |a| > 0 {
      assert (a + b)[0] == a[0];
      assert (a + b)[1..] == a[1..] + b;
      CountFailedAppend(a[1..], b);
    } else {
      assert a + b == b;
    }
  }

  /** A failure at one position affects neither the classification of the
      items after it nor the length of the log: reconciling a concatenation
      is the concatenation of the reconciliations. */
  lemma ReconcileAppend<E, D>(a: seq<ItemResult<E, D>>, b: seq<ItemResult<E, D>>)
    ensures ReconcileAll(a + b) == ReconcileAll(a) + ReconcileAll(b)
  {
  }

  /** One failing item among `n` successes is logged as exactly one failure
      and `n` successes. */
  lemma {:induction false} OneFailureAmongSuccesses<E, D>(before: seq<ItemResult<E, D>>, bad: ItemResult<E, D>, after: seq<ItemResult<E, D>>)
    requires bad.error.Some?
    requires forall i :: 0 <= i < |before| ==> before[i].error.None?
    requires forall i :: 0 <= i < |after| ==> after[i].error.None?
    ensures CountFailed(ReconcileAll(before + [bad] + after)) == 1
    ensures CountSucceeded(ReconcileAll(before + [bad] + after)) == |before| + |after|
  {
    ReconcileAppend(before + [bad], after);
    ReconcileAppend(before, [bad]);
    CountFailedAppend(ReconcileAll(before) + ReconcileAll([bad]), ReconcileAll(after));
    CountFailedAppend(ReconcileAll(before), ReconcileAll([bad]));
    NoErrorsNoFailures(before);
    NoErrorsNoFailures(after);
    CountsPartition(ReconcileAll(before + [bad] + after));
  }

  lemma {:induction false} NoErrorsNoFailures<E, D>(results: seq<ItemResult<E, D>>)
    requires forall i :: 0 <= i < |results| ==> results[i].error.None?
    ensures CountFailed(ReconcileAll(results)) == 0
    decreases |results|
  {
    if |results| > 0 {
      NoErrorsNoFailures(results[1..]);
      assert ReconcileAll(results)[1..] == ReconcileAll(results[1..]);
    }
  }

  /** A batch result: one item result per command key. `order` is the order
      in which `Object.values` hands the items over, which the host decides:
      any enumeration of the keys without repetition. */
  predicate Enumerates<K, V>(order: seq<K>, m: map<K, V>) {
    (forall i, j :: 0 <= i < j < |order| ==> order[i] != order[j])
    && m.Keys == (set k | k in order)
  }

  function ReconcileBatch<K, E, D>(m: map<K, ItemResult<E, D>>, order: seq<K>): (log: seq<Outcome<E, D>>)
    requires Enumerates(order, m)
    ensures |log| == |order| == |m|
    ensures forall i :: 0 <= i < |order| ==> log[i] == Classify(m[order[i]])
  {
    DistinctLength(order, m);
    ReconcileAll(seq(|order|, i requires 0 <= i < |order| => m[order[i]]))
  }

  lemma DistinctLength<K, V>(order: seq<K>, m: map<K, V>)
    requires Enumerates(order, m)
    ensures |order| == |m|
  {
    var s := set k | k in order;
    assert s == m.Keys;
    DistinctSeqCard(order);
  }

  lemma {:induction false} DistinctSeqCard<K>(order: seq<K>)
    requires forall i, j :: 0 <= i < j < |order| ==> order[i] != order[j]
    ensures |set k | k in order| == |order|
    decreases |order|
  {
    if |order| > 0 {
      var rest := order[1..];
      DistinctSeqCard(rest);
      assert (set k | k in order) == {order[0]} + (set k | k in rest);
      assert order[0] !in rest;
    }
  }

  /** The keys whose items carry an error descriptor. */
  function ErrorKeys<K, E, D>(m: map<K, ItemResult<E, D>>): set<K> {
    set k | k in m && m[k].error.Some?
  }

  lemma {:induction false} FailedCountsErrorKeys<K, E, D>(m: map<K, ItemResult<E, D>>, order: seq<K>)
    requires forall i, j :: 0 <= i < j < |order| ==> order[i] != order[j]
    requires forall i :: 0 <= i < |order| ==> order[i] in m
    ensures CountFailed(ReconcileAll(seq(|order|, i requires 0 <= i < |order| => m[order[i]])))
            == |set k | k in order && k in m && m[k].error.Some?|
    decreases |order|
  {
    var items := seq(|order|, i requires 0 <= i < |order| => m[order[i]]);
    if |order| > 0 {
      var rest := order[1..];
      var restItems := seq(|rest|, i requires 0 <= i < |rest| => m[rest[i]]);
      assert items[1..] == restItems;
      assert ReconcileAll(items)[1..] == ReconcileAll(restItems);
      FailedCountsErrorKeys(m, rest);
      var all := set k | k in order && k in m && m[k].error.Some?;
      var tail := set k | k in rest && k in m && m[k].error.Some?;
      assert order[0] !in rest;
      if m[order[0]].error.Some? {
        assert all == {order[0]} + tail;
      } else {
        assert all == tail;
      }
    }
  }

  /** However the host orders the items, the log holds one failure per key
      with an error descriptor and one success per key without. */
  lemma BatchCounts<K, E, D>(m: map<K, ItemResult<E, D>>, order: seq<K>)
    requires Enumerates(order, m)
    ensures CountFailed(ReconcileBatch(m, order)) == |ErrorKeys(m)|
    ensures CountSucceeded(ReconcileBatch(m, order)) == |m| - |ErrorKeys(m)|
  {
    FailedCountsErrorKeys(m, order);
    assert (set k | k in order && k in m && m[k].error.Some?) == ErrorKeys(m);
    CountsPartition(ReconcileBatch(m, order));
  }
}
