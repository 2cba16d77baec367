/** Counting in first-seen order: the `stats[k] = (stats[k] || 0) + 1` idiom the
    source uses for every histogram, and the order in which such an object lists its
    keys. */
module Tally {
  import KeyOrder

  type Histogram = seq<(string, nat)>

  ghost predicate DistinctKeys(t: Histogram)
  {
    forall i, j :: 0 <= i < j < |t| ==> t[i].0 != t[j].0
  }

  /** The count recorded for `k`, 0 when `k` is absent. */
  function Count(t: Histogram, k: string): nat
  {
    if |t| == 0 then 0 else if t[0].0 == k then t[0].1 else Count(t[1..], k)
  }

  function Sum(t: Histogram): nat
  {
    if |t| == 0 then 0 else t[0].1 + Sum(t[1..])
  }

  ghost predicate HasKey(t: Histogram, k: string)
  {
    exists i :: 0 <= i < |t| && t[i].0 == k
  }

  /** `stats[k] = (stats[k] || 0) + 1`: a new key is added last with count 1. */
  function Increment(t: Histogram, k: string): (r: Histogram)
    ensures Sum(r) == Sum(t) + 1
    ensures Count(r, k) == Count(t, k) + 1
    ensures forall j :: j != k ==> Count(r, j) == Count(t, j)
  {
    if |t| == 0 then [(k, 1)]
    else if t[0].0 == k then [(k, t[0].1 + 1)] + t[1..]
    else [t[0]] + Increment(t[1..], k)
  }

  lemma {:induction false} IncrementKeys(t: Histogram, k: string)
    ensures forall j :: HasKey(Increment(t, k), j) ==> j == k || HasKey(t, j)
    ensures DistinctKeys(t) ==> DistinctKeys(Increment(t, k))
    ensures (forall i :: 0 <= i < |t| ==> t[i].1 >= 1) ==> forall i :: 0 <= i < |Increment(t, k)| ==> Increment(t, k)[i].1 >= 1
    decreases |t|
  {
    if |t| > 0 && t[0].0 != k {
      var rest := Increment(t[1..], k);
      IncrementKeys(t[1..], k);
      assert Increment(t, k) == [t[0]] + rest;
      forall j | HasKey(Increment(t, k), j) && j != k
        ensures HasKey(t, j)
      {
        var i :| 0 <= i < |Increment(t, k)| && Increment(t, k)[i].0 == j;
        if i > 0 {
          assert rest[i - 1].0 == j;
          assert HasKey(rest, j);
          var i' :| 0 <= i' < |t[1..]| && t[1..][i'].0 == j;
          assert t[i' + 1].0 == j;
        } else {
          assert t[0].0 == j;
        }
      }
      if DistinctKeys(t) {
        forall i | 0 <= i < |rest|
          ensures rest[i].0 != t[0].0
        {
          assert HasKey(rest, rest[i].0);
          if HasKey(t[1..], rest[i].0) {
            var i' :| 0 <= i' < |t[1..]| && t[1..][i'].0 == rest[i].0;
            assert t[i' + 1].0 == rest[i].0;
          }
        }
      }
    }
  }

  /** The histogram of `xs`: one entry per distinct value, in order of first
      occurrence, whose count is the number of times the value occurs. */
  function Tally(xs: seq<string>): (r: Histogram)
    ensures DistinctKeys(r)
    ensures Sum(r) == |xs|
    ensures forall k :: Count(r, k) == multiset(xs)[k]
    ensures forall i :: 0 <= i < |r| ==> r[i].1 >= 1
  {
    if |xs| == 0 then []
    else
      var last := xs[|xs| - 1];
      assert xs == xs[..|xs| - 1] + [last];
      IncrementKeys(Tally(xs[..|xs| - 1]), last);
      Increment(Tally(xs[..|xs| - 1]), last)
  }

  // ---------------------------------------------------------------------------
  // Enumeration order of an object's keys

  /** The key of an entry. */
  function EntryKey(e: (string, nat)): string
  {
    e.0
  }

  /** `Object.entries(stats)`: the entries of the histogram in key order. */
  function Entries(t: Histogram): (r: Histogram)
    ensures multiset(r) == multiset(t)
    ensures |r| == |t|
  {
    KeyOrder.EnumerateSpec(t, EntryKey);
    KeyOrder.Enumerate(t, EntryKey)
  }

  /** `Object.entries` lists the entries whose key is an array index first, by
      ascending index, then the others in the order their keys were first counted. */
  lemma EntriesOrder(t: Histogram)
    ensures var r := Entries(t);
      var n := |KeyOrder.IndexItems(t, EntryKey)|;
      && n <= |r|
      && (forall i :: 0 <= i < n ==> KeyOrder.IsArrayIndex(r[i].0))
      && (forall i, j :: 0 <= i < j < n ==> KeyOrder.IndexValue(r[i].0) <= KeyOrder.IndexValue(r[j].0))
      && (forall i :: n <= i < |r| ==> !KeyOrder.IsArrayIndex(r[i].0))
      && r[n..] == KeyOrder.OtherItems(t, EntryKey)
  {
    KeyOrder.EnumerateSpec(t, EntryKey);
  }

  /** Without array-index keys `Object.entries` keeps the counting order. */
  lemma EntriesWithoutIndices(t: Histogram)
    requires forall i :: 0 <= i < |t| ==> !KeyOrder.IsArrayIndex(t[i].0)
    ensures Entries(t) == t
  {
    KeyOrder.EnumerateWithoutIndices(t, EntryKey);
  }
}
