/** Matching the records of two snapshots by `id` and finding the fields that differ:
    the part `ChangeMonitor.detectChanges` and `DataTransformer.compareData` share. */
module Snapshot {
  import opened Wrappers
  import opened JsValue
  import opened Seqs
  import KeyOrder

  /** The id of a record, `item.id`. */
  function IdOf(item: Record): Value
  {
    item.Get("id")
  }

  /** `items.find(item => item.id === id)`: the first record with that id. */
  function FindById(items: seq<Record>, id: Value): (r: Option<Record>)
    ensures r.None? <==> forall i :: 0 <= i < |items| ==> !StrictEq(IdOf(items[i]), id)
    ensures r.Some? ==> exists i :: 0 <= i < |items| && items[i] == r.value && FirstWithId(items, id, i)
  {
    if |items| == 0 then None
    else if StrictEq(IdOf(items[0]), id) then
      assert FirstWithId(items, id, 0);
      Some(items[0])
    else
      var r := FindById(items[1..], id);
      if r.Some? then
        assert exists i :: 0 <= i < |items| && items[i] == r.value && FirstWithId(items, id, i) by {
          var i :| 0 <= i < |items[1..]| && items[1..][i] == r.value && FirstWithId(items[1..], id, i);
          assert FirstWithId(items, id, i + 1);
        }
        r
      else
        assert forall i :: 1 <= i < |items| ==> items[i] == items[1..][i - 1];
        r
  }

  /** `items[i]` has the id and no earlier record has it. */
  ghost predicate FirstWithId(items: seq<Record>, id: Value, i: int)
  {
    && 0 <= i < |items|
    && StrictEq(IdOf(items[i]), id)
    && forall j :: 0 <= j < i ==> !StrictEq(IdOf(items[j]), id)
  }

  /** `oldItem[key] !== newItem[key]`. */
  predicate Differs(oldItem: Record, newItem: Record, key: string)
  {
    !StrictEq(oldItem.Get(key), newItem.Get(key))
  }

  /** The keys among `keys` on which the two records differ, in order. */
  function DifferingKeys(oldItem: Record, newItem: Record, keys: seq<string>): seq<string>
  {
    if |keys| == 0 then []
    else
      (if Differs(oldItem, newItem, keys[0]) then [keys[0]] else [])
      + DifferingKeys(oldItem, newItem, keys[1..])
  }

  /** The fields reported for a matched record: the keys of the new record, in its
      `Object.keys` order, whose value is not `===` to the old record's. */
  function ChangedKeys(oldItem: Record, newItem: Record): seq<string>
  {
    DifferingKeys(oldItem, newItem, newItem.OwnKeys())
  }

  lemma {:induction false} DifferingKeysSpec(oldItem: Record, newItem: Record, keys: seq<string>)
    ensures forall k :: k in DifferingKeys(oldItem, newItem, keys) <==> k in keys && Differs(oldItem, newItem, k)
    ensures IsSubsequence(DifferingKeys(oldItem, newItem, keys), keys)
    decreases |keys|
  {
    if |keys| > 0 {
      DifferingKeysSpec(oldItem, newItem, keys[1..]);
      assert keys == [keys[0]] + keys[1..];
      var rest := DifferingKeys(oldItem, newItem, keys[1..]);
      if Differs(oldItem, newItem, keys[0]) {
        var r := [keys[0]] + rest;
        assert r[0] == keys[0] && r[1..] == rest;
        assert IsSubsequence(r, keys);
      } else {
        assert DifferingKeys(oldItem, newItem, keys) == rest;
        assert IsSubsequence(rest, keys);
      }
    }
  }

  /** A changed field is a key of the new record whose value is not `===` to the old
      one, and every such key is reported, in the new record's key order: keys only the
      old record has, and equal values, give nothing. */
  lemma ChangedKeysSpec(oldItem: Record, newItem: Record)
    ensures forall k :: k in ChangedKeys(oldItem, newItem) <==> k in newItem.keys && Differs(oldItem, newItem, k)
    ensures IsSubsequence(ChangedKeys(oldItem, newItem), newItem.OwnKeys())
  {
    KeyOrder.EnumerateMembers(newItem.keys, KeyOrder.KeyName);
    DifferingKeysSpec(oldItem, newItem, newItem.OwnKeys());
  }

  lemma {:induction false} NoDifferingKeysWithItself(item: Record, keys: seq<string>)
    ensures DifferingKeys(item, item, keys) == []
    decreases |keys|
  {
    if |keys| > 0 {
      StrictEqIsEquivalence(item.Get(keys[0]), item.Get(keys[0]), item.Get(keys[0]));
      NoDifferingKeysWithItself(item, keys[1..]);
    }
  }

  /** Ids that are pairwise distinct under `===`. */
  ghost predicate UniqueIds(items: seq<Record>)
  {
    forall i, j :: 0 <= i < j < |items| ==> !StrictEq(IdOf(items[i]), IdOf(items[j]))
  }

  /** In a snapshot with unique ids every record finds itself. */
  lemma FindSelf(items: seq<Record>, i: int)
    requires UniqueIds(items) && 0 <= i < |items|
    ensures FindById(items, IdOf(items[i])) == Some(items[i])
  {
    var id := IdOf(items[i]);
    StrictEqIsEquivalence(id, id, id);
    var r := FindById(items, id);
    var k :| 0 <= k < |items| && items[k] == r.value && FirstWithId(items, id, k);
    var found := IdOf(items[k]);
    assert k < i ==> !StrictEq(found, id);
    assert i < k ==> !StrictEq(id, id);
  }
}
