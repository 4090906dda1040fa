/**
 * The counting `reduce` both charts use: walk the list, and for each element that has a
 * key, create the key's entry at 0 the first time and add one to it; then read the
 * dictionary back as `[key, count]` entries (`Object.entries`/`Object.values`).
 * An element is given by its key, or `None` when the element is skipped.
 */
module Counting {
  import opened Wrappers

  /** How many elements carry the key `k`. */
  function Occurrences<K(==)>(keys: seq<Option<K>>, k: K): nat
  {
    if keys == [] then 0
    else Occurrences(keys[..|keys| - 1], k) + (if keys[|keys| - 1] == Some(k) then 1 else 0)
  }

  /** How many elements carry a key at all. */
  function Tallied<K>(keys: seq<Option<K>>): nat
  {
    if keys == [] then 0
    else Tallied(keys[..|keys| - 1]) + (if keys[|keys| - 1].Some? then 1 else 0)
  }

  /** The sum of the counts of a list of entries. */
  function Total<K>(entries: seq<(K, nat)>): nat
  {
    if entries == [] then 0 else Total(entries[..|entries| - 1]) + entries[|entries| - 1].1
  }

  lemma {:induction false} OccurrencesAbsent<K>(keys: seq<Option<K>>, k: K)
    requires Some(k) !in keys
    ensures Occurrences(keys, k) == 0
  {
    if keys != [] {
      OccurrencesAbsent(keys[..|keys| - 1], k);
    }
  }

  predicate Distinct<K(==)>(s: seq<K>)
  {
    forall i, j :: 0 <= i < j < |s| ==> s[i] != s[j]
  }

  function SumOver<K>(order: seq<K>, counts: map<K, nat>): nat
    requires forall k :: k in order ==> k in counts
  {
    if order == [] then 0
    else SumOver(order[..|order| - 1], counts) + counts[order[|order| - 1]]
  }

  lemma {:induction false} SumOverFrame<K>(order: seq<K>, counts: map<K, nat>, k: K, v: nat)
    requires forall x :: x in order ==> x in counts
    requires k !in order
    ensures SumOver(order, counts[k := v]) == SumOver(order, counts)
  {
    if order != [] {
      SumOverFrame(order[..|order| - 1], counts, k, v);
    }
  }

  lemma {:induction false} SumOverBump<K>(order: seq<K>, counts: map<K, nat>, k: K)
    requires forall x :: x in order ==> x in counts
    requires Distinct(order) && k in order
    ensures SumOver(order, counts[k := counts[k] + 1]) == SumOver(order, counts) + 1
  {
    var init := order[..|order| - 1];
    if order[|order| - 1] == k {
      assert k !in init;
      SumOverFrame(init, counts, k, counts[k] + 1);
    } else {
      assert k in init;
      SumOverBump(init, counts, k);
    }
  }

  lemma {:induction false} TotalOfPairs<K>(order: seq<K>, counts: map<K, nat>)
    requires forall x :: x in order ==> x in counts
    ensures Total(seq(|order|, i requires 0 <= i < |order| => (order[i], counts[order[i]]))) == SumOver(order, counts)
  {
    var entries := seq(|order|, i requires 0 <= i < |order| => (order[i], counts[order[i]]));
    if order != [] {
      var init := order[..|order| - 1];
      TotalOfPairs(init, counts);
      assert entries[..|entries| - 1] == seq(|init|, i requires 0 <= i < |init| => (init[i], counts[init[i]]));
    }
  }

  /** What the accumulator holds after counting `seen`: each key once, with its count. */
  ghost predicate Counted<K(!new)>(seen: seq<Option<K>>, order: seq<K>, counts: map<K, nat>)
  {
    && Distinct(order)
    && (forall k :: k in counts <==> k in order)
    && (forall k :: k in counts <==> Some(k) in seen)
    && (forall k :: k in counts ==> 1 <= counts[k] == Occurrences(seen, k))
    && SumOver(order, counts) == Tallied(seen)
  }

  lemma OccurrencesSnoc<K>(seen: seq<Option<K>>, key: Option<K>)
    ensures forall x :: Occurrences(seen + [key], x) == Occurrences(seen, x) + (if key == Some(x) then 1 else 0)
    ensures Tallied(seen + [key]) == Tallied(seen) + (if key.Some? then 1 else 0)
  {
    assert (seen + [key])[..|seen|] == seen;
  }

  lemma CountSkipped<K(!new)>(seen: seq<Option<K>>, order: seq<K>, counts: map<K, nat>)
    requires Counted(seen, order, counts)
    ensures Counted(seen + [None], order, counts)
  {
    OccurrencesSnoc(seen, None);
  }

  lemma CountNewKey<K(!new)>(seen: seq<Option<K>>, order: seq<K>, counts: map<K, nat>, k: K)
    requires Counted(seen, order, counts) && k !in counts
    ensures Counted(seen + [Some(k)], order + [k], counts[k := 1])
  {
    OccurrencesSnoc(seen, Some(k));
    OccurrencesAbsent(seen, k);
    SumOverFrame(order, counts, k, 1);
    var order' := order + [k];
    assert order'[..|order'| - 1] == order;
  }

  lemma CountSeenKey<K(!new)>(seen: seq<Option<K>>, order: seq<K>, counts: map<K, nat>, k: K)
    requires Counted(seen, order, counts) && k in counts
    ensures Counted(seen + [Some(k)], order, counts[k := counts[k] + 1])
  {
    OccurrencesSnoc(seen, Some(k));
    SumOverBump(order, counts, k);
  }

  /** The counted entries: one per distinct key, each with how often that key occurs. */
  method Tally<K(==,!new)>(keys: seq<Option<K>>) returns (entries: seq<(K, nat)>)
    ensures forall i, j :: 0 <= i < j < |entries| ==> entries[i].0 != entries[j].0
    ensures forall i :: 0 <= i < |entries| ==> 1 <= entries[i].1 == Occurrences(keys, entries[i].0)
    ensures forall k :: Some(k) in keys <==> exists i :: 0 <= i < |entries| && entries[i].0 == k
    ensures Total(entries) == Tallied(keys)
  {
    var order: seq<K> := [];
    var counts: map<K, nat> := map[];
    for i := 0 to |keys|
      invariant Counted(keys[..i], order, counts)
    {
      assert keys[..i + 1] == keys[..i] + [keys[i]];
      match keys[i]
      case None =>
        CountSkipped(keys[..i], order, counts);
      case Some(k) =>
        if k !in counts {
          CountNewKey(keys[..i], order, counts, k);
          counts := counts[k := 1];
          order := order + [k];
        } else {
          CountSeenKey(keys[..i], order, counts, k);
          counts := counts[k := counts[k] + 1];
        }
    }
    assert keys[..|keys|] == keys;
    entries := seq(|order|, i requires 0 <= i < |order| => (order[i], counts[order[i]]));
    TotalOfPairs(order, counts);
    assert forall k :: k in order ==> exists i :: 0 <= i < |entries| && entries[i].0 == k by {
      forall k | k in order ensures exists i :: 0 <= i < |entries| && entries[i].0 == k {
        var i :| 0 <= i < |order| && order[i] == k;
        assert entries[i].0 == k;
      }
    }
  }
}
