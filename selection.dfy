/** Which entry of one observer batch wins. */
module Selection {
  import opened Wrappers

  /** One visibility sample: how much of `target` is on screen. */
  datatype Entry<T> = Entry(ratio: real, isIntersecting: bool, target: T)

  /**
   * The entry the left-to-right scan keeps: the first entry, replaced only by
   * a later one whose ratio is strictly greater.
   */
  function BestIndex<T>(entries: seq<Entry<T>>): (k: nat)
    requires |entries| > 0
    ensures k < |entries|
    decreases |entries|
  {
    if |entries| == 1 then 0
    else
      var b := BestIndex(entries[..|entries| - 1]);
      if entries[|entries| - 1].ratio > entries[b].ratio then |entries| - 1 else b
  }

  /** `k` has the largest ratio, and every earlier entry a strictly smaller one. */
  predicate IsFirstMax<T>(entries: seq<Entry<T>>, k: nat) {
    && k < |entries|
    && (forall j :: 0 <= j < |entries| ==> entries[j].ratio <= entries[k].ratio)
    && (forall j :: 0 <= j < k ==> entries[j].ratio < entries[k].ratio)
  }

  lemma {:induction false} BestIndexIsFirstMax<T>(entries: seq<Entry<T>>)
    requires |entries| > 0
    ensures IsFirstMax(entries, BestIndex(entries))
  {
    if |entries| > 1 {
      var init := entries[..|entries| - 1];
      BestIndexIsFirstMax(init);
      assert forall j :: 0 <= j < |init| ==> init[j] == entries[j];
    }
  }

  /** An entry beaten strictly by another one in the batch is never chosen. */
  lemma StrictlyLargerWins<T>(entries: seq<Entry<T>>, i: nat, j: nat)
    requires i < |entries| && j < |entries|
    requires entries[i].ratio > entries[j].ratio
    ensures BestIndex(entries) != j
    ensures entries[BestIndex(entries)].ratio >= entries[i].ratio
  {
    BestIndexIsFirstMax(entries);
  }

  /** At most one index is the first maximum of a batch. */
  lemma FirstMaxUnique<T>(entries: seq<Entry<T>>, k: nat, k': nat)
    requires IsFirstMax(entries, k) && IsFirstMax(entries, k')
    ensures k == k'
  {
    // Both are maxima, so their ratios are equal; a strict inequality would
    // separate them if either came first.
    assert entries[k].ratio == entries[k'].ratio;
  }

  /**
   * The observer acts on a batch only when the winner is intersecting: the
   * batch is non-empty and its first entry of largest ratio is intersecting.
   */
  predicate Acts<T>(entries: seq<Entry<T>>): (r: bool)
    ensures r <==> exists k: nat :: IsFirstMax(entries, k) && entries[k].isIntersecting
  {
    if |entries| == 0 then false
    else
      BestIndexIsFirstMax(entries);
      forall k | IsFirstMax(entries, k) ensures k == BestIndex(entries) {
        FirstMaxUnique(entries, k, BestIndex(entries));
      }
      entries[BestIndex(entries)].isIntersecting
  }

  /** The scan itself; `None` when the batch is empty. */
  method SelectBest<T>(entries: seq<Entry<T>>) returns (best: Option<nat>)
    ensures best.None? <==> |entries| == 0
    ensures best.Some? ==> best.value == BestIndex(entries) && IsFirstMax(entries, best.value)
  {
    if |entries| == 0 {
      return None;
    }
    var b := 0;
    for i := 0 to |entries|
      invariant b < |entries|
      invariant i > 0 ==> b == BestIndex(entries[..i])
      invariant i == 0 ==> b == 0
    {
      assert entries[..i + 1][..i] == entries[..i];
      if entries[i].ratio > entries[b].ratio {
        b := i;
      }
    }
    assert entries[..|entries|] == entries;
    BestIndexIsFirstMax(entries);
    best := Some(b);
  }
}
