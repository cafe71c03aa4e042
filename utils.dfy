/** `Utils`: the weighted roulette `Choice`, the uniform `Choice` and
    `NRandom`. Unity's random source is replaced by the values it would
    have returned, passed in as parameters. Weights are `real`: float
    rounding is not modelled. */
module Utils {
  import opened Options

  /* ---------- weighted choice ---------- */

  /** The sum of a sequence of weights. */
  function Sum(ws: seq<real>): real
  {
    if ws == [] then 0.0 else Sum(ws[..|ws| - 1]) + ws[|ws| - 1]
  }

  lemma SumSnoc(ws: seq<real>, i: nat)
    requires i < |ws|
    ensures Sum(ws[..i + 1]) == Sum(ws[..i]) + ws[i]
  {
    assert ws[..i + 1][..i] == ws[..i];
  }

  /** Weights that are none of them negative sum to a non-negative total. */
  lemma {:induction false} SumNonNegative(ws: seq<real>)
    requires forall i :: 0 <= i < |ws| ==> 0.0 <= ws[i]
    ensures 0.0 <= Sum(ws)
    decreases |ws|
  {
    if ws != [] {
      SumNonNegative(ws[..|ws| - 1]);
    }
  }

  /** The running weight up to and including index `j`. */
  function RunningSum(ws: seq<real>, j: nat): real
    requires j < |ws|
  {
    Sum(ws[..j + 1])
  }

  /** The first index, from `i` on, whose running weight reaches `r`;
      None when none does. */
  function FirstReachingFrom(ws: seq<real>, r: real, i: nat): (idx: Option<nat>)
    requires i <= |ws|
    ensures idx.Some? ==> i <= idx.value < |ws| && RunningSum(ws, idx.value) >= r
    ensures idx.Some? ==> forall j :: i <= j < idx.value ==> RunningSum(ws, j) < r
    ensures idx.None? <==> forall j :: i <= j < |ws| ==> RunningSum(ws, j) < r
    decreases |ws| - i
  {
    if i == |ws| then None
    else if RunningSum(ws, i) >= r then Some(i)
    else FirstReachingFrom(ws, r, i + 1)
  }

  /** The index the scan of `Choice` stops at for the threshold `r`. */
  function FirstReaching(ws: seq<real>, r: real): Option<nat>
  {
    FirstReachingFrom(ws, r, 0)
  }

  /** `getWeight` applied to every item, in index order. */
  function WeightsOf<T>(items: seq<T>, getWeight: T -> real): seq<real>
  {
    seq(|items|, i requires 0 <= i < |items| => getWeight(items[i]))
  }

  /** What `Choice(items, getWeight)` picks for the threshold `r` that
      `Random.Range(0, total)` drew: the first item whose running weight
      reaches it, or the default (None) when none does. */
  function WeightedChoice<T>(items: seq<T>, weights: seq<real>, r: real): (c: Option<T>)
    requires |weights| == |items|
    ensures c.None? <==> forall j :: 0 <= j < |weights| ==> RunningSum(weights, j) < r
    ensures c.Some? ==>
      exists i :: 0 <= i < |items| && c.value == items[i]
        && RunningSum(weights, i) >= r && forall j :: 0 <= j < i ==> RunningSum(weights, j) < r
  {
    match FirstReaching(weights, r)
    case Some(i) => Some(items[i])
    case None => None
  }

  /** `Choice(items, getWeight)`: a null list (None) gives the default; the
      weights are gathered and summed in one pass, the threshold is drawn
      for the total (`randomRange` stands for `Random.Range(0, total)`),
      then the running weight is compared with it in a second pass. */
  method Choice<T>(items: Option<seq<T>>, getWeight: T -> real, randomRange: real -> real) returns (chosen: Option<T>)
    ensures items.None? ==> chosen.None?
    ensures items.Some? ==>
      var weights := WeightsOf(items.value, getWeight);
      chosen == WeightedChoice(items.value, weights, randomRange(Sum(weights)))
  {
    if items.None? {
      return None;
    }
    var list := items.value;
    var weights := new real[|list|];
    var total := 0.0;
    for i := 0 to |list|
      invariant forall k :: 0 <= k < i ==> weights[k] == getWeight(list[k])
      invariant total == Sum(weights[..i])
    {
      var w := getWeight(list[i]);
      ghost var before := weights[..i];
      weights[i] := w;
      total := total + w;
      assert weights[..i + 1][..i] == before;
    }
    ghost var ws := weights[..];
    assert ws == WeightsOf(list, getWeight) && ws == weights[..|list|];
    var upTo := 0.0;
    var r := randomRange(total);
    for i := 0 to |list|
      invariant weights[..] == ws && r == randomRange(Sum(ws))
      invariant upTo == Sum(ws[..i])
      invariant FirstReachingFrom(ws, r, i) == FirstReaching(ws, r)
    {
      SumSnoc(ws, i);
      if upTo + weights[i] >= r {
        return Some(list[i]);
      }
      upTo := upTo + weights[i];
    }
    return None;
  }

  /** A picked item is one of the list's. */
  lemma WeightedChoiceIsListed<T>(items: seq<T>, weights: seq<real>, r: real)
    requires |weights| == |items|
    ensures WeightedChoice(items, weights, r).Some? ==> WeightedChoice(items, weights, r).value in items
  {
  }

  /** With at least one item and a threshold no greater than the total
      weight (as `Random.Range(0, total)` draws for a total that is not
      negative), the scan always stops at an item: `return default` is not
      reached. */
  lemma WeightedChoiceReachesAnItem<T>(items: seq<T>, weights: seq<real>, r: real)
    requires |weights| == |items| && 0 < |items| && r <= Sum(weights)
    ensures WeightedChoice(items, weights, r).Some?
  {
    assert weights[..(|weights| - 1) + 1] == weights;
    assert RunningSum(weights, |weights| - 1) >= r;
  }

  /** An item whose weight is not positive, at any index but the first, is
      never picked: the item before it already reached the threshold. */
  lemma NonPositiveWeightNeverChosen(ws: seq<real>, r: real, i: nat)
    requires 0 < i < |ws| && ws[i] <= 0.0
    ensures FirstReaching(ws, r) != Some(i)
  {
    SumSnoc(ws, i);
    assert RunningSum(ws, i - 1) == Sum(ws[..i]);
  }

  /** At the first index a weight of zero can be picked: a zero draw meets
      the `>=` test straight away. */
  lemma ZeroWeightFirstCanBeChosen()
    ensures FirstReaching([0.0, 1.0], 0.0) == Some(0)
  {
    assert [0.0, 1.0][..1] == [0.0];
    assert [0.0][..0] == [];
  }

  /* ---------- uniform choice ---------- */

  /** `Choice(items)`: the item at `idx`, the value `Random.Range(0, Count)`
      returned; an empty list has no such index (the source throws). */
  function UniformChoice<T>(items: seq<T>, idx: int): (item: T)
    requires 0 <= idx < |items|
    ensures item in items
  {
    items[idx]
  }

  /* ---------- NRandom ---------- */

  /** No index appears twice. */
  predicate Distinct(order: seq<nat>)
  {
    forall a, b :: 0 <= a < b < |order| ==> order[a] != order[b]
  }

  /** Every index has a key. */
  predicate HasKeys(keys: seq<real>, order: seq<nat>)
  {
    forall k :: 0 <= k < |order| ==> order[k] < |keys|
  }

  /** The indices are listed by non-decreasing key. */
  predicate SortedBy(keys: seq<real>, order: seq<nat>)
  {
    HasKeys(keys, order) && forall k :: 0 < k < |order| ==> keys[order[k - 1]] <= keys[order[k]]
  }

  /** Where index `i` goes in `order`: after every index whose key is not
      greater than its own. */
  function Position(keys: seq<real>, i: nat, order: seq<nat>): (m: nat)
    requires i < |keys| && HasKeys(keys, order)
    ensures m <= |order|
    ensures forall k :: 0 <= k < m ==> keys[order[k]] <= keys[i]
    ensures m < |order| ==> keys[order[m]] > keys[i]
  {
    if order == [] || keys[order[0]] > keys[i] then 0 else 1 + Position(keys, i, order[1..])
  }

  /** Puts index `i` in `order`, after every index at the front whose key
      is not greater than its own. */
  function Insert(keys: seq<real>, i: nat, order: seq<nat>): seq<nat>
    requires i < |keys| && HasKeys(keys, order)
  {
    if order == [] || keys[order[0]] > keys[i] then [i] + order
    else [order[0]] + Insert(keys, i, order[1..])
  }

  /** The result of `Insert` is `order` cut at `Position`, with `i` in
      between. */
  lemma {:induction false} InsertSplits(keys: seq<real>, i: nat, order: seq<nat>)
    requires i < |keys| && HasKeys(keys, order)
    ensures var m := Position(keys, i, order);
      Insert(keys, i, order) == order[..m] + [i] + order[m..]
  {
    if order != [] && keys[order[0]] <= keys[i] {
      InsertSplits(keys, i, order[1..]);
      var m := Position(keys, i, order[1..]);
      assert order[1..][..m] == order[1..m + 1];
      assert order[1..][m..] == order[m + 1..];
      assert [order[0]] + order[1..m + 1] == order[..m + 1];
    }
  }

  /** Where each element of `order` ends up once `i` is inserted. */
  lemma InsertIndex(keys: seq<real>, i: nat, order: seq<nat>)
    requires i < |keys| && HasKeys(keys, order)
    ensures var m, r := Position(keys, i, order), Insert(keys, i, order);
      |r| == |order| + 1 && r[m] == i
      && (forall k :: 0 <= k < m ==> r[k] == order[k])
      && (forall k :: m < k < |r| ==> r[k] == order[k - 1])
  {
    InsertSplits(keys, i, order);
  }

  /** Inserting `i` adds `i` and keeps every index already placed. */
  lemma InsertMembers(keys: seq<real>, i: nat, order: seq<nat>)
    requires i < |keys| && HasKeys(keys, order)
    ensures var r := Insert(keys, i, order);
      |r| == |order| + 1 && (forall x :: x in r <==> x == i || x in order)
  {
    var m, r := Position(keys, i, order), Insert(keys, i, order);
    InsertSplits(keys, i, order);
    assert order == order[..m] + order[m..];
    assert forall x :: x in r <==> x in order[..m] || x == i || x in order[m..];
  }

  /** ... each of them once, when `i` was not among them. */
  lemma InsertDistinct(keys: seq<real>, i: nat, order: seq<nat>)
    requires i < |keys| && HasKeys(keys, order)
    requires i !in order && Distinct(order)
    ensures Distinct(Insert(keys, i, order))
  {
    var m, r := Position(keys, i, order), Insert(keys, i, order);
    InsertIndex(keys, i, order);
    forall a, b | 0 <= a < b < |r| ensures r[a] != r[b] {
      if b < m {
        assert r[a] == order[a] && r[b] == order[b];
      } else if a > m {
        assert r[a] == order[a - 1] && r[b] == order[b - 1];
      } else if a < m < b {
        assert r[a] == order[a] && r[b] == order[b - 1];
      } else if a == m {
        assert r[b] == order[b - 1];
      } else {
        assert r[a] == order[a];
      }
    }
  }

  /** Inserting into a sorted order keeps it sorted. */
  lemma InsertSorted(keys: seq<real>, i: nat, order: seq<nat>)
    requires i < |keys| && SortedBy(keys, order)
    ensures SortedBy(keys, Insert(keys, i, order))
  {
    var m, r := Position(keys, i, order), Insert(keys, i, order);
    InsertIndex(keys, i, order);
    forall k | 0 < k < |r| ensures keys[r[k - 1]] <= keys[r[k]] {
      if k < m {
        assert r[k - 1] == order[k - 1] && r[k] == order[k];
      } else if k == m {
        assert r[k - 1] == order[k - 1];
      } else if k == m + 1 {
        assert r[k] == order[m];
      } else {
        assert r[k - 1] == order[k - 2] && r[k] == order[k - 1];
      }
    }
  }

  /** The indices 0 .. n-1 ordered by key: `OrderBy(key)`. */
  function SortByKey(keys: seq<real>, n: nat): (r: seq<nat>)
    requires n <= |keys|
    ensures |r| == n && (forall x: nat :: x in r <==> x < n) && Distinct(r) && SortedBy(keys, r)
  {
    if n == 0 then []
    else
      var order := SortByKey(keys, n - 1);
      InsertMembers(keys, n - 1, order);
      InsertDistinct(keys, n - 1, order);
      InsertSorted(keys, n - 1, order);
      Insert(keys, n - 1, order)
  }

  /** How many elements `Take(count)` keeps of `n`: none for a count that is
      not positive. */
  function TakeCount(count: int, n: nat): nat
  {
    if count <= 0 then 0 else if count < n then count else n
  }

  /** `NRandom(list, elementsCount)`: the list ordered by the random keys
      `Random.value` drew for its elements, one key per element, then its
      first `elementsCount` elements. */
  function NRandom<T>(list: seq<T>, keys: seq<real>, elementsCount: int): (r: seq<T>)
    requires |keys| == |list|
    ensures elementsCount <= 0 ==> r == []
    ensures 0 <= elementsCount <= |list| ==> |r| == elementsCount
    ensures elementsCount >= |list| ==> |r| == |list|
    ensures forall i :: 0 <= i < |r| ==> r[i] in list
  {
    var order := SortByKey(keys, |list|);
    seq(TakeCount(elementsCount, |list|), i requires 0 <= i < TakeCount(elementsCount, |list|) => list[order[i]])
  }

  /** `NRandom` returns min(elementsCount, Count) elements (none for a count
      that is not positive), each from its own position of the list, in
      the order of their keys. */
  lemma NRandomPicksDistinctPositions<T>(list: seq<T>, keys: seq<real>, elementsCount: int)
    requires |keys| == |list|
    ensures var r := NRandom(list, keys, elementsCount);
      |r| == (if elementsCount <= 0 then 0 else if elementsCount < |list| then elementsCount else |list|)
      && exists ps: seq<nat> ::
        && ps == SortByKey(keys, |list|)[..|r|]
        && |ps| == |r| && Distinct(ps) && SortedBy(keys, ps)
        && (forall i :: 0 <= i < |ps| ==> ps[i] < |list| && r[i] == list[ps[i]])
        && (forall j, k :: 0 <= j < |list| && j !in ps && k in ps ==> keys[k] <= keys[j])
  {
    var r := NRandom(list, keys, elementsCount);
    var order := SortByKey(keys, |list|);
    var ps := order[..|r|];
    assert |ps| == |r| && Distinct(ps) && SortedBy(keys, ps);
    assert forall i :: 0 <= i < |ps| ==> ps[i] < |list| && r[i] == list[ps[i]];
    PrefixHasSmallestKeys(keys, order, |r|);
  }

  /** The first m indices of a sorted order of 0 .. |order|-1 have keys no
      greater than any index after them. */
  lemma PrefixHasSmallestKeys(keys: seq<real>, order: seq<nat>, m: nat)
    requires |order| == |keys| && SortedBy(keys, order) && m <= |order|
    requires forall x: nat :: x in order <==> x < |order|
    ensures forall j, k :: 0 <= j < |order| && j !in order[..m] && k in order[..m] ==> keys[k] <= keys[j]
  {
    var ps := order[..m];
    forall j, k | 0 <= j < |order| && j !in ps && k in ps ensures keys[k] <= keys[j] {
      assert j in order;
      var b :| 0 <= b < |order| && order[b] == j;
      var a :| 0 <= a < |ps| && ps[a] == k;
      assert forall i :: 0 <= i < |ps| ==> ps[i] == order[i];
      SortedByIsMonotone(keys, order, a, b);
    }
  }

  /** In an order sorted by key, an earlier index never has a greater key. */
  lemma {:induction false} SortedByIsMonotone(keys: seq<real>, order: seq<nat>, a: nat, b: nat)
    requires SortedBy(keys, order) && a <= b < |order|
    ensures keys[order[a]] <= keys[order[b]]
    decreases b - a
  {
    if a < b {
      SortedByIsMonotone(keys, order, a, b - 1);
    }
  }
}
