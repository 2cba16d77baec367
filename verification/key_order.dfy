/** The order in which JavaScript lists the own string keys of a plain object
    (OrdinaryOwnPropertyKeys, section 10.1.11.1 of ECMA-262): keys that are array
    indices come first, in ascending numeric order, and the other keys follow in the
    order they were added. `Object.keys` and `Object.entries` use this order. */
module KeyOrder {
  import opened JsText
  import opened Seqs
  import Sorting

  /** A canonical array index: the decimal text, without leading zeros, of an integer
      below 2^32 - 1. */
  predicate IsArrayIndex(k: string)
  {
    && |k| > 0
    && (forall i :: 0 <= i < |k| ==> IsDigit(k[i]))
    && (k[0] != '0' || |k| == 1)
    && DigitsValue(k, 10) < 0x1_0000_0000 - 1
  }

  /** The number an array-index key stands for. */
  function IndexValue(k: string): int
  {
    DigitsValue(k, 10)
  }

  /** A key named by itself. */
  function KeyName(k: string): string
  {
    k
  }

  /** The items whose name is an array index, in their original order. */
  function IndexItems<T>(xs: seq<T>, name: T -> string): seq<T>
  {
    if |xs| == 0 then []
    else (if IsArrayIndex(name(xs[0])) then [xs[0]] else []) + IndexItems(xs[1..], name)
  }

  /** The items whose name is not an array index, in their original order. */
  function OtherItems<T>(xs: seq<T>, name: T -> string): seq<T>
  {
    if |xs| == 0 then []
    else (if IsArrayIndex(name(xs[0])) then [] else [xs[0]]) + OtherItems(xs[1..], name)
  }

  /** Every item is in exactly one of the two groups. */
  lemma {:induction false} Partition<T>(xs: seq<T>, name: T -> string)
    ensures multiset(IndexItems(xs, name)) + multiset(OtherItems(xs, name)) == multiset(xs)
    ensures |IndexItems(xs, name)| + |OtherItems(xs, name)| == |xs|
    ensures forall x :: x in IndexItems(xs, name) ==> IsArrayIndex(name(x))
    ensures forall x :: x in OtherItems(xs, name) ==> !IsArrayIndex(name(x))
  {
    if |xs| > 0 {
      Partition(xs[1..], name);
      assert xs == [xs[0]] + xs[1..];
    }
  }

  lemma SplitCounts<T>(a: seq<T>, b: seq<T>, s: seq<T>)
    requires forall x :: multiset(a)[x] + multiset(b)[x] == multiset(s)[x]
    ensures multiset(a) + multiset(b) == multiset(s)
    ensures |a| + |b| == |s|
  {
    assert multiset(a) + multiset(b) == multiset(s);
    assert |multiset(a) + multiset(b)| == |multiset(s)|;
  }

  /** The sort key that puts smaller indices first. */
  function Ascending<T>(name: T -> string): T -> int
  {
    (x: T) => -IndexValue(name(x))
  }

  /** The array-index items by ascending index. */
  function SortedIndexItems<T>(xs: seq<T>, name: T -> string): seq<T>
  {
    Sorting.SortDesc(IndexItems(xs, name), Ascending(name))
  }

  /** Items listed in key order. */
  function Enumerate<T>(xs: seq<T>, name: T -> string): seq<T>
  {
    SortedIndexItems(xs, name) + OtherItems(xs, name)
  }

  /** The array-index items, sorted, are all array indices and ascend. */
  lemma SortedIndexItemsSpec<T>(xs: seq<T>, name: T -> string)
    ensures var r := SortedIndexItems(xs, name);
      && |r| == |IndexItems(xs, name)| && multiset(r) == multiset(IndexItems(xs, name))
      && (forall i :: 0 <= i < |r| ==> IsArrayIndex(name(r[i])))
      && forall i, j :: 0 <= i < j < |r| ==> IndexValue(name(r[i])) <= IndexValue(name(r[j]))
  {
    Partition(xs, name);
    var r := SortedIndexItems(xs, name);
    forall i | 0 <= i < |r|
      ensures IsArrayIndex(name(r[i]))
    {
      assert r[i] in multiset(IndexItems(xs, name));
    }
    forall i, j | 0 <= i < j < |r|
      ensures IndexValue(name(r[i])) <= IndexValue(name(r[j]))
    {
      assert Ascending(name)(r[i]) >= Ascending(name)(r[j]);
    }
  }

  /** Key order lists every item once: those named by an array index first, by
      ascending index, then the others in their original order. */
  lemma EnumerateSpec<T>(xs: seq<T>, name: T -> string)
    ensures var r := Enumerate(xs, name);
      && |r| == |xs| && multiset(r) == multiset(xs)
      && |IndexItems(xs, name)| <= |r|
      && (forall i :: 0 <= i < |IndexItems(xs, name)| ==> IsArrayIndex(name(r[i])))
      && (forall i, j :: 0 <= i < j < |IndexItems(xs, name)| ==> IndexValue(name(r[i])) <= IndexValue(name(r[j])))
      && r[|IndexItems(xs, name)|..] == OtherItems(xs, name)
      && forall i :: |IndexItems(xs, name)| <= i < |r| ==> !IsArrayIndex(name(r[i]))
  {
    Partition(xs, name);
    SortedIndexItemsSpec(xs, name);
    EnumerateParts(SortedIndexItems(xs, name), OtherItems(xs, name), name);
  }

  /** Index-named items followed by other items, each group in its own order. */
  lemma EnumerateParts<T>(sorted: seq<T>, others: seq<T>, name: T -> string)
    requires forall i :: 0 <= i < |sorted| ==> IsArrayIndex(name(sorted[i]))
    requires forall i, j :: 0 <= i < j < |sorted| ==> IndexValue(name(sorted[i])) <= IndexValue(name(sorted[j]))
    requires forall x :: x in others ==> !IsArrayIndex(name(x))
    ensures var r := sorted + others;
      && (forall i :: 0 <= i < |sorted| ==> IsArrayIndex(name(r[i])))
      && (forall i, j :: 0 <= i < j < |sorted| ==> IndexValue(name(r[i])) <= IndexValue(name(r[j])))
      && r[|sorted|..] == others
      && forall i :: |sorted| <= i < |r| ==> !IsArrayIndex(name(r[i]))
  {
    var r := sorted + others;
    assert r[|sorted|..] == others;
    forall i | |sorted| <= i < |r|
      ensures !IsArrayIndex(name(r[i]))
    {
      assert r[i] == others[i - |sorted|];
    }
  }

  /** Key order keeps exactly the items given. */
  lemma EnumerateMembers<T>(xs: seq<T>, name: T -> string)
    ensures forall x :: x in Enumerate(xs, name) <==> x in xs
  {
    EnumerateSpec(xs, name);
    assert forall x :: x in Enumerate(xs, name) <==> x in multiset(Enumerate(xs, name));
  }

  lemma {:induction false} NoIndexItems<T>(xs: seq<T>, name: T -> string)
    requires forall i :: 0 <= i < |xs| ==> !IsArrayIndex(name(xs[i]))
    ensures IndexItems(xs, name) == [] && OtherItems(xs, name) == xs
  {
    if |xs| > 0 {
      NoIndexItems(xs[1..], name);
      assert xs == [xs[0]] + xs[1..];
    }
  }

  /** Without array-index names the order is the original one. */
  lemma EnumerateWithoutIndices<T>(xs: seq<T>, name: T -> string)
    requires forall i :: 0 <= i < |xs| ==> !IsArrayIndex(name(xs[i]))
    ensures Enumerate(xs, name) == xs
  {
    NoIndexItems(xs, name);
    assert |SortedIndexItems(xs, name)| == 0;
  }
}
