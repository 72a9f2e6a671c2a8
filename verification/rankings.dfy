/**
 * The channel-ranking helpers of `server/app.py`: the threshold
 * intersection of several rankings (`find_intersection`,
 * `find_intersection_with_indices`) and the re-ordering of the common
 * channels by the position they most often hold
 * (`arrange_by_max_occurrence`).
 *
 * A ranking is a sequence of channel numbers. Python's insertion-ordered
 * dictionaries become sequences of (key, value) entries with distinct keys.
 */
module Rankings {
  import opened Base

  // ---------------------------------------------------------------------
  // np.unique
  // ---------------------------------------------------------------------

  predicate Increasing(s: seq<int>) {
    forall i, j :: 0 <= i < j < |s| ==> s[i] < s[j]
  }

  /** x inserted into an increasing sequence, unless already there. */
  function InsertUnique(x: int, s: seq<int>): (r: seq<int>)
    requires Increasing(s)
    ensures Increasing(r)
    ensures forall y :: y in r <==> y == x || y in s
    ensures |s| > 0 && |r| > 0 ==> r[0] == Min(x as real, s[0] as real).Floor
    decreases |s|
  {
    if |s| == 0 then [x]
    else if x < s[0] then [x] + s
    else if x == s[0] then s
    else [s[0]] + InsertUnique(x, s[1..])
  }

  /** `np.unique`: the distinct values in increasing order. */
  function Unique(a: seq<int>): (r: seq<int>)
    ensures Increasing(r)
    ensures forall y :: y in r <==> y in a
  {
    if |a| == 0 then [] else InsertUnique(a[0], Unique(a[1..]))
  }

  // ---------------------------------------------------------------------
  // The occurrence table
  // ---------------------------------------------------------------------

  /** An entry of `item_occurrences`: a channel and the indices of the
      rankings that contain it. */
  datatype Entry = Entry(item: int, holders: seq<nat>)

  predicate DistinctKeys(t: seq<Entry>) {
    forall i, j :: 0 <= i < j < |t| ==> t[i].item != t[j].item
  }

  /** The holders stored under x, if x is a key. */
  function Lookup(t: seq<Entry>, x: int): (o: Option<seq<nat>>)
    ensures o.Some? <==> exists k :: 0 <= k < |t| && t[k].item == x
  {
    if |t| == 0 then None
    else if t[0].item == x then Some(t[0].holders)
    else
      var o := Lookup(t[1..], x);
      assert forall k :: 1 <= k < |t| ==> t[k] == t[1..][k - 1];
      o
  }

  function HoldersOf(o: Option<seq<nat>>): seq<nat> {
    if o.None? then [] else o.value
  }

  /** With distinct keys, every entry is what its key looks up. */
  lemma {:induction false} LookupAt(t: seq<Entry>, k: nat)
    requires DistinctKeys(t) && k < |t|
    ensures Lookup(t, t[k].item) == Some(t[k].holders)
  {
    if k > 0 {
      assert t[1..][k - 1] == t[k];
      LookupAt(t[1..], k - 1);
    }
  }

  /** The indices below n of the rankings that contain x, in increasing order. */
  function Holders(arrays: seq<seq<int>>, n: nat, x: int): (h: seq<nat>)
    requires n <= |arrays|
    ensures |h| <= n
    ensures forall j :: j in h <==> 0 <= j < n && x in arrays[j]
  {
    if n == 0 then [] else Holders(arrays, n - 1, x) + (if x in arrays[n - 1] then [n - 1] else [])
  }

  /** x is in every one of the first n rankings exactly when it has n holders. */
  lemma {:induction false} HoldersAll(arrays: seq<seq<int>>, n: nat, x: int)
    requires n <= |arrays|
    ensures |Holders(arrays, n, x)| == n <==> forall j :: 0 <= j < n ==> x in arrays[j]
  {
    if n > 0 {
      HoldersAll(arrays, n - 1, x);
    }
  }

  /** `item_occurrences[item].append(i)`, creating the entry at the end when
      the item is new. Entries never move. */
  function Record(t: seq<Entry>, x: int, i: nat): (r: seq<Entry>)
    ensures Lookup(t, x).Some? ==> |r| == |t|
    ensures Lookup(t, x).None? ==> r == t + [Entry(x, [i])]
    ensures |t| <= |r| && forall k :: 0 <= k < |t| ==> r[k].item == t[k].item
    decreases |t|
  {
    if |t| == 0 then [Entry(x, [i])]
    else if t[0].item == x then [Entry(x, t[0].holders + [i])] + t[1..]
    else
      var r := [t[0]] + Record(t[1..], x, i);
      assert forall k :: 1 <= k < |t| ==> t[k] == t[1..][k - 1];
      r
  }

  /** After recording, x looks up its old holders followed by i, and every
      other item looks up what it did before. */
  lemma {:induction false} RecordLookup(t: seq<Entry>, x: int, i: nat, y: int)
    ensures Lookup(Record(t, x, i), y) == if y == x then Some(HoldersOf(Lookup(t, x)) + [i]) else Lookup(t, y)
    decreases |t|
  {
    var r := Record(t, x, i);
    if |t| > 0 && t[0].item != x {
      assert r[1..] == Record(t[1..], x, i);
      RecordLookup(t[1..], x, i, y);
    } else if |t| > 0 {
      assert r[1..] == t[1..];
    } else {
      assert r[1..] == [];
      assert [] + [i] == [i];
    }
  }

  lemma RecordDistinct(t: seq<Entry>, x: int, i: nat)
    requires DistinctKeys(t)
    ensures DistinctKeys(Record(t, x, i))
  {
  }

  /** Records every item of `items` as held by ranking i. */
  function RecordAll(t: seq<Entry>, items: seq<int>, i: nat): (r: seq<Entry>)
    ensures |t| <= |r| && forall k :: 0 <= k < |t| ==> r[k].item == t[k].item
    decreases |items|
  {
    if |items| == 0 then t else RecordAll(Record(t, items[0], i), items[1..], i)
  }

  /** Recording a list of distinct items appends i to the holders of each
      of them and to nothing else, and keeps the keys distinct. */
  lemma {:induction false} RecordAllLookup(t: seq<Entry>, items: seq<int>, i: nat, y: int)
    requires Increasing(items)
    ensures Lookup(RecordAll(t, items, i), y) == if y in items then Some(HoldersOf(Lookup(t, y)) + [i]) else Lookup(t, y)
    decreases |items|
  {
    if |items| > 0 {
      RecordLookup(t, items[0], i, y);
      RecordAllLookup(Record(t, items[0], i), items[1..], i, y);
      assert y in items <==> y == items[0] || y in items[1..];
      assert items[0] !in items[1..];
    }
  }

  lemma {:induction false} RecordAllDistinct(t: seq<Entry>, items: seq<int>, i: nat)
    requires DistinctKeys(t)
    ensures DistinctKeys(RecordAll(t, items, i))
    decreases |items|
  {
    if |items| > 0 {
      RecordDistinct(t, items[0], i);
      RecordAllDistinct(Record(t, items[0], i), items[1..], i);
    }
  }

  /** The table after the first n rankings: each ranking's distinct
      values are recorded in increasing order. */
  function Table(arrays: seq<seq<int>>, n: nat): (t: seq<Entry>)
    requires n <= |arrays|
  {
    if n == 0 then [] else RecordAll(Table(arrays, n - 1), Unique(arrays[n - 1]), n - 1)
  }

  /** The table is what `item_occurrences` means to hold: distinct keys, and
      under each item seen in the first n rankings exactly the rankings that
      contain it. */
  lemma {:induction false} TableLookup(arrays: seq<seq<int>>, n: nat, y: int)
    requires n <= |arrays|
    ensures Lookup(Table(arrays, n), y) == if Holders(arrays, n, y) == [] then None else Some(Holders(arrays, n, y))
  {
    if n > 0 {
      var prev := Table(arrays, n - 1);
      var u := Unique(arrays[n - 1]);
      var h := Holders(arrays, n - 1, y);
      assert Table(arrays, n) == RecordAll(prev, u, n - 1);
      TableLookup(arrays, n - 1, y);
      RecordAllLookup(prev, u, n - 1, y);
      assert HoldersOf(Lookup(prev, y)) == h;
      if y in arrays[n - 1] {
        assert y in u;
        assert Holders(arrays, n, y) == h + [n - 1];
      } else {
        assert y !in u;
        assert Holders(arrays, n, y) == h;
      }
    }
  }

  lemma {:induction false} TableDistinct(arrays: seq<seq<int>>, n: nat)
    requires n <= |arrays|
    ensures DistinctKeys(Table(arrays, n))
  {
    if n > 0 {
      TableDistinct(arrays, n - 1);
      RecordAllDistinct(Table(arrays, n - 1), Unique(arrays[n - 1]), n - 1);
    }
  }

  /** The table is what `item_occurrences` means to hold: distinct keys, and
      under each item seen in the first n rankings exactly the rankings that
      contain it. */
  lemma TableDescribes(arrays: seq<seq<int>>, n: nat)
    requires n <= |arrays|
    ensures DistinctKeys(Table(arrays, n))
    ensures forall y :: Lookup(Table(arrays, n), y) ==
              if Holders(arrays, n, y) == [] then None else Some(Holders(arrays, n, y))
  {
    TableDistinct(arrays, n);
    forall y ensures Lookup(Table(arrays, n), y) ==
                     if Holders(arrays, n, y) == [] then None else Some(Holders(arrays, n, y)) {
      TableLookup(arrays, n, y);
    }
  }

  /** `int(threshold * num_arrays)`. */
  function MinOccurrences(threshold: real, k: nat): int {
    Trunc(threshold * k as real)
  }

  /** The items of the entries with at least m holders, in table order. */
  function Frequent(t: seq<Entry>, m: int): (r: seq<int>)
    ensures forall x :: x in r <==> exists k :: 0 <= k < |t| && t[k].item == x && |t[k].holders| >= m
  {
    if |t| == 0 then []
    else
      var r := (if |t[0].holders| >= m then [t[0].item] else []) + Frequent(t[1..], m);
      assert forall k :: 1 <= k < |t| ==> t[k] == t[1..][k - 1];
      r
  }

  lemma FrequentLookup(t: seq<Entry>, m: int, x: int)
    requires DistinctKeys(t)
    ensures x in Frequent(t, m) <==> Lookup(t, x).Some? && |Lookup(t, x).value| >= m
  {
    if Lookup(t, x).Some? {
      var k :| 0 <= k < |t| && t[k].item == x;
      LookupAt(t, k);
    }
    if x in Frequent(t, m) {
      var k :| 0 <= k < |t| && t[k].item == x && |t[k].holders| >= m;
      LookupAt(t, k);
    }
  }

  /** `find_intersection(arrays, threshold)`. */
  function FindIntersection(arrays: seq<seq<int>>, threshold: real): seq<int> {
    Frequent(Table(arrays, |arrays|), MinOccurrences(threshold, |arrays|))
  }

  /** An item is returned exactly when it appears in some ranking and in at
      least `int(threshold k)` of the k rankings; at the default threshold
      that is when it appears in every ranking (and there is at least one). */
  lemma FindIntersectionMeaning(arrays: seq<seq<int>>, threshold: real, x: int)
    ensures x in FindIntersection(arrays, threshold) <==>
              (exists j :: 0 <= j < |arrays| && x in arrays[j])
              && |Holders(arrays, |arrays|, x)| >= MinOccurrences(threshold, |arrays|)
    ensures threshold == 1.0 ==>
              (x in FindIntersection(arrays, threshold) <==>
                 |arrays| > 0 && forall j :: 0 <= j < |arrays| ==> x in arrays[j])
  {
    var h := Holders(arrays, |arrays|, x);
    TableDescribes(arrays, |arrays|);
    FrequentLookup(Table(arrays, |arrays|), MinOccurrences(threshold, |arrays|), x);
    if h != [] {
      assert h[0] in h;
    }
    HoldersAll(arrays, |arrays|, x);
    if threshold == 1.0 {
      assert MinOccurrences(threshold, |arrays|) == |arrays|;
      if |arrays| > 0 && forall j :: 0 <= j < |arrays| ==> x in arrays[j] {
        assert x in arrays[0];
      }
    }
  }

  /** Each returned item is returned once, and an item's place in the
      table is fixed by the first ranking that contains it. */
  lemma FindIntersectionDistinct(arrays: seq<seq<int>>, threshold: real)
    ensures forall i, j :: 0 <= i < j < |FindIntersection(arrays, threshold)| ==>
              FindIntersection(arrays, threshold)[i] != FindIntersection(arrays, threshold)[j]
  {
    TableDescribes(arrays, |arrays|);
    FrequentDistinct(Table(arrays, |arrays|), MinOccurrences(threshold, |arrays|));
  }

  lemma {:induction false} FrequentDistinct(t: seq<Entry>, m: int)
    requires DistinctKeys(t)
    ensures forall i, j :: 0 <= i < j < |Frequent(t, m)| ==> Frequent(t, m)[i] != Frequent(t, m)[j]
  {
    if |t| > 0 {
      FrequentDistinct(t[1..], m);
      forall k | 0 <= k < |t[1..]| ensures t[1..][k].item != t[0].item {
        assert t[1..][k] == t[k + 1];
      }
      var rest := Frequent(t[1..], m);
      assert t[0].item !in rest;
      var r := Frequent(t, m);
      if |t[0].holders| >= m {
        assert r == [t[0].item] + rest;
        forall i, j | 0 <= i < j < |r| ensures r[i] != r[j] {
          assert r[j] == rest[j - 1];
          if i > 0 {
            assert r[i] == rest[i - 1];
          }
        }
      } else {
        assert r == rest;
      }
    }
  }

  // ---------------------------------------------------------------------
  // The order of the result
  // ---------------------------------------------------------------------

  /** The order in which `item_occurrences` first sees two items among the
      first n rankings: a comes first when the first ranking holding it is
      earlier, or when both first appear in the same ranking and a is
      smaller, since `np.unique` visits each ranking's values in increasing
      order. */
  predicate SeenBefore(arrays: seq<seq<int>>, n: nat, a: int, b: int)
    requires n <= |arrays|
  {
    var ha, hb := Holders(arrays, n, a), Holders(arrays, n, b);
    && |ha| > 0 && |hb| > 0
    && (ha[0] < hb[0] || (ha[0] == hb[0] && a < b))
  }

  /** The keys of t are in first-seen order. */
  predicate SeenOrder(arrays: seq<seq<int>>, n: nat, t: seq<Entry>)
    requires n <= |arrays|
  {
    forall k, l :: 0 <= k < l < |t| ==> SeenBefore(arrays, n, t[k].item, t[l].item)
  }

  /** Recording a list of distinct increasing items keeps the old keys in
      place and appends the new ones, in increasing order, after them. */
  lemma {:induction false} RecordAllAppends(t: seq<Entry>, items: seq<int>, i: nat)
    requires Increasing(items)
    ensures forall k :: |t| <= k < |RecordAll(t, items, i)| ==>
              RecordAll(t, items, i)[k].item in items && Lookup(t, RecordAll(t, items, i)[k].item).None?
    ensures forall k, l :: |t| <= k < l < |RecordAll(t, items, i)| ==>
              RecordAll(t, items, i)[k].item < RecordAll(t, items, i)[l].item
    decreases |items|
  {
    if |items| > 0 {
      var x, rest := items[0], items[1..];
      var t' := Record(t, x, i);
      var r := RecordAll(t', rest, i);
      assert RecordAll(t, items, i) == r;
      assert Increasing(rest);
      RecordAllAppends(t', rest, i);
      assert forall y :: y in rest ==> y in items && x < y by {
        forall y | y in rest ensures y in items && x < y {
          var m :| 0 <= m < |rest| && rest[m] == y;
          assert items[m + 1] == y;
        }
      }
      assert forall k :: |t| <= k < |t'| ==> r[k].item == x && Lookup(t, x).None? by {
        forall k | |t| <= k < |t'|
          ensures r[k].item == x && Lookup(t, x).None?
        {
          assert Lookup(t, x).None? && t' == t + [Entry(x, [i])];
          assert r[k].item == t'[k].item;
        }
      }
      forall k | |t| <= k < |r|
        ensures r[k].item in items && Lookup(t, r[k].item).None?
      {
        if |t'| <= k {
          NewKeyAfterRecord(t, x, i, r[k].item);
        }
      }
      forall k, l | |t| <= k < l < |r|
        ensures r[k].item < r[l].item
      {
        if k < |t'| {
          assert r[l].item in rest;
        }
      }
    }
  }

  /** An item that is not a key after recording x was not one before, and is not x. */
  lemma NewKeyAfterRecord(t: seq<Entry>, x: int, i: nat, y: int)
    requires Lookup(Record(t, x, i), y).None?
    ensures y != x && Lookup(t, y).None?
  {
    RecordLookup(t, x, i, y);
  }

  /** The first holder of an item seen among the first n - 1 rankings does
      not change when ranking n - 1 is added. */
  lemma FirstHolderStays(arrays: seq<seq<int>>, n: nat, x: int)
    requires 0 < n <= |arrays|
    requires |Holders(arrays, n - 1, x)| > 0
    ensures |Holders(arrays, n, x)| > 0 && Holders(arrays, n, x)[0] == Holders(arrays, n - 1, x)[0]
    ensures Holders(arrays, n - 1, x)[0] < n - 1
  {
    assert Holders(arrays, n - 1, x)[0] in Holders(arrays, n - 1, x);
  }

  /** An item ranking n - 1 holds that no earlier ranking does is first held there. */
  lemma FirstHeldAt(arrays: seq<seq<int>>, n: nat, x: int)
    requires 0 < n <= |arrays|
    requires Lookup(Table(arrays, n - 1), x).None? && x in Unique(arrays[n - 1])
    ensures Holders(arrays, n, x) == [n - 1]
  {
    TableLookup(arrays, n - 1, x);
  }

  /** A key of the table after n - 1 rankings has an earlier first holder. */
  lemma OldKeyHeld(arrays: seq<seq<int>>, n: nat, k: nat)
    requires 0 < n <= |arrays|
    requires k < |Table(arrays, n - 1)|
    ensures var x := Table(arrays, n - 1)[k].item;
            |Holders(arrays, n - 1, x)| > 0 && Holders(arrays, n, x)[0] == Holders(arrays, n - 1, x)[0] < n - 1
  {
    var prev := Table(arrays, n - 1);
    var x := prev[k].item;
    assert Lookup(prev, x).Some? by {
      TableDistinct(arrays, n - 1);
      LookupAt(prev, k);
    }
    assert |Holders(arrays, n - 1, x)| > 0 by {
      TableLookup(arrays, n - 1, x);
    }
    FirstHolderStays(arrays, n, x);
  }

  /** `item_occurrences` holds its keys in first-seen order. */
  lemma {:induction false} TableSeenOrder(arrays: seq<seq<int>>, n: nat)
    requires n <= |arrays|
    ensures SeenOrder(arrays, n, Table(arrays, n))
  {
    if n > 0 {
      var prev := Table(arrays, n - 1);
      var u := Unique(arrays[n - 1]);
      var t := Table(arrays, n);
      assert t == RecordAll(prev, u, n - 1);
      TableSeenOrder(arrays, n - 1);
      RecordAllAppends(prev, u, n - 1);
      forall k, l | 0 <= k < l < |t|
        ensures SeenBefore(arrays, n, t[k].item, t[l].item)
      {
        SeenStep(arrays, n, k, l);
      }
    }
  }

  /** One pair of keys of the table after n rankings, given the order after n - 1. */
  lemma SeenStep(arrays: seq<seq<int>>, n: nat, k: nat, l: nat)
    requires 0 < n <= |arrays|
    requires SeenOrder(arrays, n - 1, Table(arrays, n - 1))
    requires k < l < |Table(arrays, n)|
    ensures SeenBefore(arrays, n, Table(arrays, n)[k].item, Table(arrays, n)[l].item)
  {
    var prev := Table(arrays, n - 1);
    var t := Table(arrays, n);
    assert forall j :: 0 <= j < |prev| ==> t[j].item == prev[j].item by {
      RecordAllAppends(prev, Unique(arrays[n - 1]), n - 1);
    }
    var a, b := t[k].item, t[l].item;
    if l < |prev| {
      assert a == prev[k].item && b == prev[l].item;
      assert SeenBefore(arrays, n - 1, a, b);
      OldKeyHeld(arrays, n, k);
      OldKeyHeld(arrays, n, l);
    } else {
      NewKeyFirstHeld(arrays, n, l);
      if k < |prev| {
        assert a == prev[k].item;
        OldKeyHeld(arrays, n, k);
      } else {
        NewKeyFirstHeld(arrays, n, k);
        assert a < b by {
          RecordAllAppends(prev, Unique(arrays[n - 1]), n - 1);
        }
      }
    }
  }

  /** A key the table gains at ranking n - 1 is first held there. */
  lemma NewKeyFirstHeld(arrays: seq<seq<int>>, n: nat, k: nat)
    requires 0 < n <= |arrays|
    requires |Table(arrays, n - 1)| <= k < |Table(arrays, n)|
    ensures Holders(arrays, n, Table(arrays, n)[k].item) == [n - 1]
  {
    var prev := Table(arrays, n - 1);
    var u := Unique(arrays[n - 1]);
    assert Table(arrays, n) == RecordAll(prev, u, n - 1);
    RecordAllAppends(prev, u, n - 1);
    FirstHeldAt(arrays, n, Table(arrays, n)[k].item);
  }

  /** The items of s are in first-seen order. */
  predicate SeenSorted(arrays: seq<seq<int>>, n: nat, s: seq<int>)
    requires n <= |arrays|
  {
    forall i, j :: 0 <= i < j < |s| ==> SeenBefore(arrays, n, s[i], s[j])
  }

  /** Filtering keeps the order of the table. */
  lemma {:induction false} FrequentSeenOrder(arrays: seq<seq<int>>, n: nat, t: seq<Entry>, m: int)
    requires n <= |arrays|
    requires SeenOrder(arrays, n, t)
    ensures SeenSorted(arrays, n, Frequent(t, m))
  {
    if |t| > 0 {
      var rest := Frequent(t[1..], m);
      TailSeenOrder(arrays, n, t);
      FrequentSeenOrder(arrays, n, t[1..], m);
      if |t[0].holders| >= m {
        assert Frequent(t, m) == [t[0].item] + rest;
        HeadSeenFirst(arrays, n, t, m);
        ConsSeenSorted(arrays, n, t[0].item, rest);
      } else {
        assert Frequent(t, m) == rest;
      }
    }
  }

  lemma TailSeenOrder(arrays: seq<seq<int>>, n: nat, t: seq<Entry>)
    requires n <= |arrays|
    requires SeenOrder(arrays, n, t) && |t| > 0
    ensures SeenOrder(arrays, n, t[1..])
  {
    forall k, l | 0 <= k < l < |t[1..]| ensures SeenBefore(arrays, n, t[1..][k].item, t[1..][l].item) {
      assert t[1..][k] == t[k + 1] && t[1..][l] == t[l + 1];
    }
  }

  /** An item seen before every item of a sorted list extends it in front. */
  lemma ConsSeenSorted(arrays: seq<seq<int>>, n: nat, a: int, rest: seq<int>)
    requires n <= |arrays|
    requires SeenSorted(arrays, n, rest)
    requires forall y :: y in rest ==> SeenBefore(arrays, n, a, y)
    ensures SeenSorted(arrays, n, [a] + rest)
  {
    var r := [a] + rest;
    forall i, j | 0 <= i < j < |r| ensures SeenBefore(arrays, n, r[i], r[j]) {
      assert r[j] == rest[j - 1];
      if i > 0 {
        assert r[i] == rest[i - 1];
      } else {
        assert rest[j - 1] in rest;
      }
    }
  }

  /** The first key of an ordered table comes before every kept later key. */
  lemma HeadSeenFirst(arrays: seq<seq<int>>, n: nat, t: seq<Entry>, m: int)
    requires n <= |arrays|
    requires SeenOrder(arrays, n, t) && |t| > 0
    ensures forall y :: y in Frequent(t[1..], m) ==> SeenBefore(arrays, n, t[0].item, y)
  {
    forall y | y in Frequent(t[1..], m) ensures SeenBefore(arrays, n, t[0].item, y) {
      var l :| 0 <= l < |t[1..]| && t[1..][l].item == y && |t[1..][l].holders| >= m;
      assert t[1..][l] == t[l + 1];
    }
  }

  /** `find_intersection` lists its items in the order the occurrence
      dictionary first saw them: by the first ranking holding them, and
      within one ranking in increasing order. */
  lemma FindIntersectionOrder(arrays: seq<seq<int>>, threshold: real)
    ensures SeenSorted(arrays, |arrays|, FindIntersection(arrays, threshold))
  {
    TableSeenOrder(arrays, |arrays|);
    FrequentSeenOrder(arrays, |arrays|, Table(arrays, |arrays|), MinOccurrences(threshold, |arrays|));
  }

  // ---------------------------------------------------------------------
  // find_intersection_with_indices
  // ---------------------------------------------------------------------

  /** `np.where(a == x)[0][0]`: the first position of x. */
  function FirstIndex(a: seq<int>, x: int): (k: nat)
    requires x in a
    ensures k < |a| && a[k] == x
    ensures forall j :: 0 <= j < k ==> a[j] != x
  {
    if a[0] == x then 0 else 1 + FirstIndex(a[1..], x)
  }

  /** The first position of x in each of the listed rankings. */
  function Positions(arrays: seq<seq<int>>, holders: seq<nat>, x: int): (ps: seq<nat>)
    requires forall j :: j in holders ==> j < |arrays| && x in arrays[j]
    ensures |ps| == |holders|
    ensures forall m :: 0 <= m < |ps| ==> holders[m] < |arrays| && x in arrays[holders[m]] && ps[m] == FirstIndex(arrays[holders[m]], x)
  {
    if |holders| == 0 then []
    else
      assert holders[0] in holders;
      assert forall j :: j in holders[1..] ==> j in holders;
      var ps := [FirstIndex(arrays[holders[0]], x)] + Positions(arrays, holders[1..], x);
      assert forall m :: 1 <= m < |holders| ==> holders[m] == holders[1..][m - 1];
      ps
  }

  /** One result pair: an item and its first position in every ranking that
      contains it. */
  datatype Placed = Placed(item: int, positions: seq<nat>)

  /** Every entry's holders contain its item. */
  ghost predicate Sound(arrays: seq<seq<int>>, t: seq<Entry>) {
    forall k :: 0 <= k < |t| ==> forall j :: j in t[k].holders ==> j < |arrays| && t[k].item in arrays[j]
  }

  function PlaceAll(arrays: seq<seq<int>>, t: seq<Entry>, m: int): (r: seq<Placed>)
    requires Sound(arrays, t)
  {
    if |t| == 0 then []
    else (if |t[0].holders| >= m then [Placed(t[0].item, Positions(arrays, t[0].holders, t[0].item))] else [])
         + PlaceAll(arrays, t[1..], m)
  }

  lemma TableSound(arrays: seq<seq<int>>)
    ensures Sound(arrays, Table(arrays, |arrays|))
  {
    var t := Table(arrays, |arrays|);
    TableDescribes(arrays, |arrays|);
    forall k | 0 <= k < |t| ensures t[k].holders == Holders(arrays, |arrays|, t[k].item) {
      LookupAt(t, k);
    }
  }

  /** `find_intersection_with_indices(arrays, threshold)`. */
  function FindIntersectionWithIndices(arrays: seq<seq<int>>, threshold: real): (r: seq<Placed>) {
    TableSound(arrays);
    PlaceAll(arrays, Table(arrays, |arrays|), MinOccurrences(threshold, |arrays|))
  }

  function Items(ps: seq<Placed>): (r: seq<int>)
    ensures |r| == |ps|
    ensures forall k :: 0 <= k < |ps| ==> r[k] == ps[k].item
  {
    if |ps| == 0 then [] else [ps[0].item] + Items(ps[1..])
  }

  lemma {:induction false} PlaceAllItems(arrays: seq<seq<int>>, t: seq<Entry>, m: int)
    requires Sound(arrays, t)
    ensures Items(PlaceAll(arrays, t, m)) == Frequent(t, m)
  {
    if |t| > 0 {
      SoundTail(arrays, t);
      PlaceAllItems(arrays, t[1..], m);
      var head := if |t[0].holders| >= m then [Placed(t[0].item, Positions(arrays, t[0].holders, t[0].item))] else [];
      ItemsAppend(head, PlaceAll(arrays, t[1..], m));
    }
  }

  lemma ItemsAppend(a: seq<Placed>, b: seq<Placed>)
    ensures Items(a + b) == Items(a) + Items(b)
  {
  }

  lemma SoundTail(arrays: seq<seq<int>>, t: seq<Entry>)
    requires Sound(arrays, t) && |t| > 0
    ensures Sound(arrays, t[1..])
  {
    assert forall k :: 1 <= k < |t| ==> t[k] == t[1..][k - 1];
  }

  lemma {:induction false} PlaceAllPositions(arrays: seq<seq<int>>, t: seq<Entry>, m: int, p: Placed)
    requires Sound(arrays, t)
    requires p in PlaceAll(arrays, t, m)
    ensures exists k :: 0 <= k < |t| && t[k].item == p.item && p.positions == Positions(arrays, t[k].holders, p.item)
  {
    SoundTail(arrays, t);
    var tail := PlaceAll(arrays, t[1..], m);
    if p in tail {
      PlaceAllPositions(arrays, t[1..], m, p);
      var k :| 0 <= k < |t[1..]| && t[1..][k].item == p.item && p.positions == Positions(arrays, t[1..][k].holders, p.item);
      assert t[k + 1] == t[1..][k];
    } else {
      assert p == Placed(t[0].item, Positions(arrays, t[0].holders, t[0].item));
    }
  }

  /** The pairs carry the items of `find_intersection`, in the same order,
      each with the first position of the item in every ranking that holds
      it, listed in ranking order. */
  lemma WithIndicesMeaning(arrays: seq<seq<int>>, threshold: real)
    ensures Items(FindIntersectionWithIndices(arrays, threshold)) == FindIntersection(arrays, threshold)
    ensures forall p :: p in FindIntersectionWithIndices(arrays, threshold) ==>
              var h := Holders(arrays, |arrays|, p.item);
              && |p.positions| == |h|
              && forall m :: 0 <= m < |h| ==> h[m] < |arrays| && p.item in arrays[h[m]] && p.positions[m] == FirstIndex(arrays[h[m]], p.item)
  {
    var t := Table(arrays, |arrays|);
    TableSound(arrays);
    TableDescribes(arrays, |arrays|);
    PlaceAllItems(arrays, t, MinOccurrences(threshold, |arrays|));
    forall p | p in FindIntersectionWithIndices(arrays, threshold)
      ensures p.positions == Positions(arrays, Holders(arrays, |arrays|, p.item), p.item)
    {
      PlaceAllPositions(arrays, t, MinOccurrences(threshold, |arrays|), p);
      var k :| 0 <= k < |t| && t[k].item == p.item && p.positions == Positions(arrays, t[k].holders, p.item);
      LookupAt(t, k);
    }
  }

  // ---------------------------------------------------------------------
  // arrange_by_max_occurrence
  // ---------------------------------------------------------------------

  function Count(s: seq<nat>, v: nat): (c: nat)
    ensures c <= |s|
    ensures c > 0 <==> v in s
  {
    if |s| == 0 then 0 else (if s[0] == v then 1 else 0) + Count(s[1..], v)
  }

  /** The distinct values of s in order of first appearance: the keys of
      `index_counts`. */
  function Distinct(s: seq<nat>): (d: seq<nat>)
    ensures forall v :: v in d <==> v in s
  {
    DistinctFrom(s, [])
  }

  function DistinctFrom(s: seq<nat>, seen: seq<nat>): (d: seq<nat>)
    ensures forall v :: v in d <==> v in s || v in seen
    ensures seen <= d
    decreases |s|
  {
    if |s| == 0 then seen
    else DistinctFrom(s[1..], if s[0] in seen then seen else seen + [s[0]])
  }

  /** Python's `max(keys, key=count)`, scanning from the key at i on with
      `best` the position of the best key so far: a later key replaces it
      only with a strictly larger count. */
  function MaxFrom(keys: seq<nat>, s: seq<nat>, best: nat, i: nat): (k0: nat)
    requires best < |keys| && i <= |keys|
    ensures k0 < |keys|
    decreases |keys| - i
  {
    if i == |keys| then best
    else MaxFrom(keys, s, if Count(s, keys[i]) > Count(s, keys[best]) then i else best, i + 1)
  }

  /** The scan finds the first key of largest count: no key counts more,
      and every key before it counts strictly less. */
  lemma {:induction false} MaxFromFirst(keys: seq<nat>, s: seq<nat>, best: nat, i: nat)
    requires best < i <= |keys|
    requires forall k :: 0 <= k < i ==> Count(s, keys[k]) <= Count(s, keys[best])
    requires forall k :: 0 <= k < best ==> Count(s, keys[k]) < Count(s, keys[best])
    ensures var k0 := MaxFrom(keys, s, best, i);
            && (forall k :: 0 <= k < |keys| ==> Count(s, keys[k]) <= Count(s, keys[k0]))
            && (forall k :: 0 <= k < k0 ==> Count(s, keys[k]) < Count(s, keys[k0]))
    decreases |keys| - i
  {
    if i < |keys| {
      var best' := if Count(s, keys[i]) > Count(s, keys[best]) then i else best;
      MaxFromFirst(keys, s, best', i + 1);
    }
  }

  /** `max(index_counts, key=index_counts.get)`: the most frequent index,
      the earliest-seen one on a tie; Python raises ValueError for no index. */
  function MostFrequent(indices: seq<nat>): (v: Option<nat>)
    ensures v.None? <==> |indices| == 0
  {
    if |indices| == 0 then None
    else
      assert indices[0] in Distinct(indices);
      var keys := Distinct(indices);
      Some(keys[MaxFrom(keys, indices, 0, 1)])
  }

  /** The most frequent index occurs, no index occurs more often, and every
      index first seen before it occurs strictly less often. */
  lemma MostFrequentMeaning(indices: seq<nat>)
    requires |indices| > 0
    ensures MostFrequent(indices).Some?
    ensures var v := MostFrequent(indices).value;
            && v in indices
            && (forall w :: w in indices ==> Count(indices, w) <= Count(indices, v))
            && exists k0 :: 0 <= k0 < |Distinct(indices)| && Distinct(indices)[k0] == v
                 && forall k :: 0 <= k < k0 ==> Count(indices, Distinct(indices)[k]) < Count(indices, v)
  {
    var keys := Distinct(indices);
    assert indices[0] in keys;
    MaxFromFirst(keys, indices, 0, 1);
    var k0 := MaxFrom(keys, indices, 0, 1);
    forall w | w in indices ensures Count(indices, w) <= Count(indices, keys[k0]) {
      assert w in keys;
      var k :| 0 <= k < |keys| && keys[k] == w;
    }
  }

  /** An entry of `frequency_dict`: an item and its most frequent index. */
  datatype Ranked = Ranked(item: int, index: nat)

  /** `frequency_dict[item] = max_index`: a repeated item keeps its place
      and takes the new index. */
  function Assign(d: seq<Ranked>, item: int, index: nat): (r: seq<Ranked>)
    ensures |r| == |d| || r == d + [Ranked(item, index)]
    ensures forall k :: 0 <= k < |d| ==> r[k].item == d[k].item
    ensures forall k :: 0 <= k < |d| && d[k].item != item ==> r[k] == d[k]
    ensures exists k :: 0 <= k < |r| && r[k] == Ranked(item, index)
    ensures HasItem(d, item) <==> |r| == |d|
    decreases |d|
  {
    if |d| == 0 then
      var r := [Ranked(item, index)];
      assert r[0] == Ranked(item, index);
      r
    else if d[0].item == item then
      var r := [Ranked(item, index)] + d[1..];
      assert r[0] == Ranked(item, index);
      r
    else
      var tail := Assign(d[1..], item, index);
      var r := [d[0]] + tail;
      assert forall k :: 1 <= k < |d| ==> d[k] == d[1..][k - 1];
      assert forall k :: 1 <= k < |r| ==> r[k] == tail[k - 1];
      var k :| 0 <= k < |tail| && tail[k] == Ranked(item, index);
      assert r[k + 1] == Ranked(item, index);
      r
  }

  predicate HasItem(d: seq<Ranked>, x: int) {
    exists k :: 0 <= k < |d| && d[k].item == x
  }

  predicate DistinctItems(d: seq<Ranked>) {
    forall i, j :: 0 <= i < j < |d| ==> d[i].item != d[j].item
  }

  predicate InPairs(pairs: seq<Placed>, x: int) {
    exists p :: p in pairs && p.item == x
  }

  /** Assigning keeps one entry per item and adds exactly the assigned item. */
  lemma AssignItems(d: seq<Ranked>, item: int, index: nat)
    requires DistinctItems(d)
    ensures DistinctItems(Assign(d, item, index))
    ensures forall x :: HasItem(Assign(d, item, index), x) <==> HasItem(d, x) || x == item
  {
    var r := Assign(d, item, index);
    forall x ensures HasItem(r, x) <==> HasItem(d, x) || x == item {
      if HasItem(d, x) {
        var k :| 0 <= k < |d| && d[k].item == x;
        assert r[k].item == x;
      }
      if HasItem(r, x) && x != item {
        var k :| 0 <= k < |r| && r[k].item == x;
        if k < |d| {
          assert d[k].item == x;
        }
      }
    }
  }

  /** The dictionary holds one entry per item of the pairs (and of the
      starting dictionary). */
  lemma {:induction false} FrequencyDictItems(pairs: seq<Placed>, d: seq<Ranked>, r: seq<Ranked>)
    requires FrequencyDict(pairs, d) == Some(r)
    requires DistinctItems(d)
    ensures DistinctItems(r)
    ensures forall x :: HasItem(r, x) <==> HasItem(d, x) || InPairs(pairs, x)
    decreases |pairs|
  {
    if |pairs| > 0 {
      var v := MostFrequent(pairs[0].positions).value;
      var d' := Assign(d, pairs[0].item, v);
      AssignItems(d, pairs[0].item, v);
      FrequencyDictItems(pairs[1..], d', r);
      forall x ensures InPairs(pairs, x) <==> x == pairs[0].item || InPairs(pairs[1..], x) {
        if InPairs(pairs, x) {
          var p :| p in pairs && p.item == x;
          assert p == pairs[0] || p in pairs[1..];
        }
        if InPairs(pairs[1..], x) {
          var p :| p in pairs[1..] && p.item == x;
          assert p in pairs;
        }
      }
    } else {
      assert r == d;
    }
  }

  /** The frequency dictionary; None when some item comes with no index. */
  function FrequencyDict(pairs: seq<Placed>, d: seq<Ranked>): (r: Option<seq<Ranked>>)
    ensures r.None? <==> exists p :: p in pairs && |p.positions| == 0
    decreases |pairs|
  {
    if |pairs| == 0 then Some(d)
    else match MostFrequent(pairs[0].positions)
      case None => None
      case Some(v) =>
        var r := FrequencyDict(pairs[1..], Assign(d, pairs[0].item, v));
        assert forall p :: p in pairs ==> p == pairs[0] || p in pairs[1..];
        r
  }

  /** The last pair carrying item x: `frequency_dict[item] = max_index`
      overwrites, so this is the pair whose most frequent index is kept. */
  function LastWith(pairs: seq<Placed>, x: int): (p: Placed)
    requires InPairs(pairs, x)
    ensures p.item == x
    ensures exists j :: 0 <= j < |pairs| && pairs[j] == p && forall j' :: j < j' < |pairs| ==> pairs[j'].item != x
    decreases |pairs|
  {
    assert forall q :: q in pairs ==> q == pairs[0] || q in pairs[1..];
    if InPairs(pairs[1..], x) then
      var p := LastWith(pairs[1..], x);
      var j :| 0 <= j < |pairs[1..]| && pairs[1..][j] == p && forall j' :: j < j' < |pairs[1..]| ==> pairs[1..][j'].item != x;
      assert pairs[j + 1] == p;
      assert forall j' :: j + 1 < j' < |pairs| ==> pairs[j'] == pairs[1..][j' - 1];
      p
    else
      assert forall j' :: 0 < j' < |pairs| ==> pairs[j'] in pairs[1..];
      pairs[0]
  }

  /** The index `arrange_by_max_occurrence` sorts item x by: the most
      frequent index of the last pair carrying it. */
  function KeyOf(pairs: seq<Placed>, x: int): nat
    requires InPairs(pairs, x)
    requires forall p :: p in pairs ==> |p.positions| > 0
  {
    var p := LastWith(pairs, x);
    assert p in pairs;
    MostFrequent(p.positions).value
  }

  /** Assigning to a dictionary with one entry per item leaves every old
      entry of another item and one new entry for the assigned item. */
  lemma AssignEntries(d: seq<Ranked>, item: int, index: nat)
    requires DistinctItems(d)
    ensures forall e :: e in Assign(d, item, index) ==> e == Ranked(item, index) || (e in d && e.item != item)
  {
    var r := Assign(d, item, index);
    AssignItems(d, item, index);
    forall e | e in r
      ensures e == Ranked(item, index) || (e in d && e.item != item)
    {
      var k :| 0 <= k < |r| && r[k] == e;
      var k' :| 0 <= k' < |r| && r[k'] == Ranked(item, index);
      if e.item == item {
        assert k == k';
      } else {
        assert k < |d|;
        assert d[k] == e;
      }
    }
  }

  /** Every entry of the dictionary is keyed by its item's most frequent
      index, taken from the last pair carrying the item; items that no pair
      carries keep their starting entry. */
  lemma {:induction false} FrequencyDictIndex(pairs: seq<Placed>, d: seq<Ranked>, r: seq<Ranked>)
    requires FrequencyDict(pairs, d) == Some(r)
    requires DistinctItems(d)
    ensures forall p :: p in pairs ==> |p.positions| > 0
    ensures forall e :: e in r ==> if InPairs(pairs, e.item) then e.index == KeyOf(pairs, e.item) else e in d
    decreases |pairs|
  {
    if |pairs| > 0 {
      var v := MostFrequent(pairs[0].positions).value;
      var d' := Assign(d, pairs[0].item, v);
      AssignItems(d, pairs[0].item, v);
      AssignEntries(d, pairs[0].item, v);
      FrequencyDictIndex(pairs[1..], d', r);
      assert forall q :: q in pairs ==> q == pairs[0] || q in pairs[1..];
      forall e | e in r
        ensures if InPairs(pairs, e.item) then e.index == KeyOf(pairs, e.item) else e in d
      {
        var x := e.item;
        if InPairs(pairs[1..], x) {
          var q :| q in pairs[1..] && q.item == x;
          assert q in pairs;
          assert LastWith(pairs, x) == LastWith(pairs[1..], x);
        } else if x == pairs[0].item {
          assert e in d';
          assert LastWith(pairs, x) == pairs[0];
        } else {
          assert e in d';
          assert !InPairs(pairs, x);
        }
      }
    } else {
      assert r == d;
    }
  }

  /** No two pairs carry the same item, as `find_intersection_with_indices` yields them. */
  predicate DistinctPairItems(pairs: seq<Placed>) {
    forall i, j :: 0 <= i < j < |pairs| ==> pairs[i].item != pairs[j].item
  }

  /** One entry per pair, in pair order: the pair's item and most frequent index. */
  function Entries(pairs: seq<Placed>): (d: seq<Ranked>)
    requires forall p :: p in pairs ==> |p.positions| > 0
    ensures |d| == |pairs|
    ensures forall k :: 0 <= k < |pairs| ==> d[k] == Ranked(pairs[k].item, MostFrequent(pairs[k].positions).value)
  {
    seq(|pairs|, k requires 0 <= k < |pairs| => assert pairs[k] in pairs; Ranked(pairs[k].item, MostFrequent(pairs[k].positions).value))
  }

  /** Dropping the first pair keeps the items distinct, and none of the
      remaining pairs carries the first pair's item. */
  lemma DistinctPairsTail(pairs: seq<Placed>)
    requires |pairs| > 0 && DistinctPairItems(pairs)
    ensures DistinctPairItems(pairs[1..])
    ensures forall p :: p in pairs[1..] ==> p in pairs && p.item != pairs[0].item
  {
    forall p | p in pairs[1..]
      ensures p in pairs && p.item != pairs[0].item
    {
      var j :| 0 <= j < |pairs[1..]| && pairs[1..][j] == p;
      assert pairs[j + 1] == p;
    }
    forall i, j | 0 <= i < j < |pairs[1..]|
      ensures pairs[1..][i].item != pairs[1..][j].item
    {
      assert pairs[1..][i] == pairs[i + 1] && pairs[1..][j] == pairs[j + 1];
    }
  }

  /** The entries of a non-empty sequence of pairs: the first pair's, then the rest's. */
  lemma {:induction false} EntriesCons(pairs: seq<Placed>)
    requires |pairs| > 0
    requires forall p :: p in pairs ==> |p.positions| > 0
    ensures forall p :: p in pairs[1..] ==> |p.positions| > 0
    ensures Entries(pairs) == [Ranked(pairs[0].item, MostFrequent(pairs[0].positions).value)] + Entries(pairs[1..])
  {
    var tail := pairs[1..];
    assert forall k :: 0 <= k < |tail| ==> tail[k] == pairs[k + 1];
    assert forall p :: p in tail ==> p in pairs;
    var lhs := Entries(pairs);
    var rhs := [Ranked(pairs[0].item, MostFrequent(pairs[0].positions).value)] + Entries(tail);
    forall k | 0 <= k < |lhs|
      ensures lhs[k] == rhs[k]
    {
      if k > 0 {
        assert rhs[k] == Entries(tail)[k - 1];
      }
    }
  }

  /** An item is in a dictionary with one entry appended when it was in the
      dictionary or is the appended entry's. */
  lemma HasItemAppend(d: seq<Ranked>, e: Ranked, x: int)
    ensures HasItem(d + [e], x) <==> HasItem(d, x) || e.item == x
  {
    if HasItem(d, x) {
      var k :| 0 <= k < |d| && d[k].item == x;
      assert (d + [e])[k] == d[k];
    }
    if e.item == x {
      assert (d + [e])[|d|] == e;
    }
    if HasItem(d + [e], x) && e.item != x {
      var k :| 0 <= k < |d + [e]| && (d + [e])[k].item == x;
      assert d[k] == (d + [e])[k];
    }
  }

  /** Appending one entry and then the rest is concatenating both at once. */
  lemma AppendThenConcat(d: seq<Ranked>, e: Ranked, rest: seq<Ranked>)
    ensures d + [e] + rest == d + ([e] + rest)
  {
  }

  /** With distinct items, the dictionary appends one entry per pair, in order. */
  lemma {:induction false} FrequencyDictOfDistinct(pairs: seq<Placed>, d: seq<Ranked>)
    requires DistinctPairItems(pairs)
    requires forall p :: p in pairs ==> |p.positions| > 0
    requires forall p :: p in pairs ==> !HasItem(d, p.item)
    ensures FrequencyDict(pairs, d) == Some(d + Entries(pairs))
    decreases |pairs|
  {
    if |pairs| > 0 {
      var e := Ranked(pairs[0].item, MostFrequent(pairs[0].positions).value);
      var d' := d + [e];
      assert Assign(d, pairs[0].item, e.index) == d';
      DistinctPairsTail(pairs);
      EntriesCons(pairs);
      forall p | p in pairs[1..]
        ensures !HasItem(d', p.item)
      {
        HasItemAppend(d, e, p.item);
      }
      FrequencyDictOfDistinct(pairs[1..], d');
      var rest := Entries(pairs[1..]);
      assert Entries(pairs) == [e] + rest;
      AppendThenConcat(d, e, rest);
    } else {
      assert d + Entries(pairs) == d;
    }
  }

  /** Insertion of one entry before the first entry whose index is not
      smaller: the step of a stable sort by index. */
  function InsertByIndex(e: Ranked, s: seq<Ranked>): (r: seq<Ranked>)
    ensures multiset(r) == multiset(s) + multiset{e}
    ensures |r| == |s| + 1
  {
    if |s| == 0 || e.index <= s[0].index then [e] + s
    else
      assert s == [s[0]] + s[1..];
      [s[0]] + InsertByIndex(e, s[1..])
  }

  predicate ByIndex(s: seq<Ranked>) {
    forall i, j :: 0 <= i < j < |s| ==> s[i].index <= s[j].index
  }

  lemma {:induction false} InsertSorted(e: Ranked, s: seq<Ranked>)
    requires ByIndex(s)
    ensures ByIndex(InsertByIndex(e, s))
    ensures |s| > 0 ==> InsertByIndex(e, s)[0] == e || InsertByIndex(e, s)[0] == s[0]
  {
    if |s| > 0 && e.index > s[0].index {
      var tail := InsertByIndex(e, s[1..]);
      InsertSorted(e, s[1..]);
      var r := [s[0]] + tail;
      assert r == InsertByIndex(e, s);
      assert forall k :: 1 <= k < |r| ==> r[k] == tail[k - 1];
      assert multiset(tail) == multiset(s[1..]) + multiset{e};
      forall k | 0 <= k < |tail| ensures s[0].index <= tail[k].index {
        assert tail[k] in multiset(tail);
        assert tail[k] == e || tail[k] in s[1..];
      }
    }
  }

  /** `sorted(frequency_dict.items(), key=lambda x: x[1])`. */
  function SortByIndex(d: seq<Ranked>): (r: seq<Ranked>)
    ensures ByIndex(r)
    ensures multiset(r) == multiset(d)
    ensures |r| == |d|
  {
    if |d| == 0 then []
    else
      assert d == [d[0]] + d[1..];
      InsertSorted(d[0], SortByIndex(d[1..]));
      InsertByIndex(d[0], SortByIndex(d[1..]))
  }

  /** The entries with index v, in order. */
  function WithIndex(s: seq<Ranked>, v: nat): seq<Ranked> {
    if |s| == 0 then [] else (if s[0].index == v then [s[0]] else []) + WithIndex(s[1..], v)
  }

  lemma {:induction false} InsertKeepsTies(e: Ranked, s: seq<Ranked>, v: nat)
    ensures WithIndex(InsertByIndex(e, s), v) == (if e.index == v then [e] else []) + WithIndex(s, v)
  {
    var r := InsertByIndex(e, s);
    if |s| == 0 || e.index <= s[0].index {
      assert r == [e] + s && r[1..] == s;
    } else {
      var tail := InsertByIndex(e, s[1..]);
      InsertKeepsTies(e, s[1..], v);
      assert r == [s[0]] + tail && r[1..] == tail;
      assert WithIndex(r, v) == (if s[0].index == v then [s[0]] else []) + WithIndex(tail, v);
      assert WithIndex(s, v) == (if s[0].index == v then [s[0]] else []) + WithIndex(s[1..], v);
    }
  }

  /** The sort is stable: entries with equal index keep their dictionary order. */
  lemma {:induction false} SortByIndexStable(d: seq<Ranked>, v: nat)
    ensures WithIndex(SortByIndex(d), v) == WithIndex(d, v)
  {
    if |d| > 0 {
      SortByIndexStable(d[1..], v);
      InsertKeepsTies(d[0], SortByIndex(d[1..]), v);
    }
  }

  /** `arrange_by_max_occurrence(pairs)`. */
  function ArrangeByMaxOccurrence(pairs: seq<Placed>): (r: Option<seq<int>>)
    ensures r.None? <==> exists p :: p in pairs && |p.positions| == 0
  {
    match FrequencyDict(pairs, [])
    case None => None
    case Some(d) =>
      var sorted := SortByIndex(d);
      Some(seq(|sorted|, k requires 0 <= k < |sorted| => sorted[k].item))
  }

  /** The arranged items are the frequency dictionary's items, each once,
      ordered by most frequent index, ties in dictionary order. Each entry's
      index is its item's most frequent index (from the last pair carrying
      the item), and with distinct items the dictionary lists the pairs in
      order. */
  lemma ArrangeMeaning(pairs: seq<Placed>, d: seq<Ranked>)
    requires FrequencyDict(pairs, []) == Some(d)
    ensures ArrangeByMaxOccurrence(pairs).Some? && |ArrangeByMaxOccurrence(pairs).value| == |d|
    ensures forall k :: 0 <= k < |d| ==> ArrangeByMaxOccurrence(pairs).value[k] == SortByIndex(d)[k].item
    ensures DistinctItems(d) && forall x :: HasItem(d, x) <==> InPairs(pairs, x)
    ensures multiset(SortByIndex(d)) == multiset(d)
    ensures ByIndex(SortByIndex(d))
    ensures forall v :: WithIndex(SortByIndex(d), v) == WithIndex(d, v)
    ensures forall p :: p in pairs ==> |p.positions| > 0
    ensures forall k :: 0 <= k < |d| ==> InPairs(pairs, d[k].item) && d[k].index == KeyOf(pairs, d[k].item)
    ensures DistinctPairItems(pairs) ==> d == Entries(pairs)
  {
    forall v ensures WithIndex(SortByIndex(d), v) == WithIndex(d, v) {
      SortByIndexStable(d, v);
    }
    FrequencyDictItems(pairs, [], d);
    DictKeys(pairs, d);
    if DistinctPairItems(pairs) {
      FrequencyDictOfDistinct(pairs, []);
      assert [] + Entries(pairs) == Entries(pairs);
    }
  }

  /** Every entry of the dictionary built from nothing is keyed by its item's
      most frequent index. */
  lemma DictKeys(pairs: seq<Placed>, d: seq<Ranked>)
    requires FrequencyDict(pairs, []) == Some(d)
    ensures forall p :: p in pairs ==> |p.positions| > 0
    ensures forall k :: 0 <= k < |d| ==> InPairs(pairs, d[k].item) && d[k].index == KeyOf(pairs, d[k].item)
  {
    FrequencyDictIndex(pairs, [], d);
    forall k | 0 <= k < |d|
      ensures InPairs(pairs, d[k].item) && d[k].index == KeyOf(pairs, d[k].item)
    {
      assert d[k] in d;
    }
  }

  /** The arranged items are ordered by their most frequent index. */
  lemma ArrangedByKey(pairs: seq<Placed>)
    requires ArrangeByMaxOccurrence(pairs).Some?
    ensures forall p :: p in pairs ==> |p.positions| > 0
    ensures forall x :: x in ArrangeByMaxOccurrence(pairs).value ==> InPairs(pairs, x)
    ensures var a := ArrangeByMaxOccurrence(pairs).value;
            forall i, j :: 0 <= i < j < |a| ==> KeyOf(pairs, a[i]) <= KeyOf(pairs, a[j])
  {
    var d := FrequencyDict(pairs, []).value;
    var sd := SortByIndex(d);
    var a := ArrangeByMaxOccurrence(pairs).value;
    assert |a| == |d| && ByIndex(sd) && forall k :: 0 <= k < |a| ==> a[k] == sd[k].item by {
      ArrangeMeaning(pairs, d);
    }
    DictKeys(pairs, d);
    forall k | 0 <= k < |a|
      ensures InPairs(pairs, a[k]) && sd[k].index == KeyOf(pairs, a[k])
    {
      assert sd[k] in multiset(d);
      var m :| 0 <= m < |d| && d[m] == sd[k];
    }
  }
}
