/** The JavaScript values the modelled code handles: primitives, arrays and plain
    objects. Arrays and objects carry a reference so that `===` can compare them by
    identity, as JavaScript does; their contents are there for reading only. Numbers
    are integer-valued. */
module JsValue {
  import opened Wrappers
  import opened JsText
  import KeyOrder

  datatype Value =
    | Undefined
    | Null
    | Bool(b: bool)
    | Num(n: int)
    | Str(s: string)
    | Arr(ref: nat, items: seq<Value>)
    | Obj(ref: nat, rec: Record)

  /** A plain object: its own keys in the order they were added, and their values.
      Reading a key that is not there gives `undefined`. */
  datatype Record = Record(keys: seq<string>, props: map<string, Value>) {

    /** `object[key]`. */
    function Get(key: string): Value
    {
      if key in props then props[key] else Undefined
    }

    /** The keys are distinct and are exactly the keys that have a value. */
    ghost predicate Valid()
    {
      && (forall i, j :: 0 <= i < j < |keys| ==> keys[i] != keys[j])
      && (forall k :: k in props <==> k in keys)
    }

    /** `Object.keys(object)`: the keys that are array indices by ascending index,
        then the other keys in the order they were added. */
    function OwnKeys(): seq<string>
    {
      KeyOrder.Enumerate(keys, KeyOrder.KeyName)
    }

    /** `object[key] = v`: a new key goes to the end of the insertion order, an
        existing one keeps its place. */
    function Set(key: string, v: Value): (r: Record)
      requires Valid()
      ensures r.Valid()
      ensures r.Get(key) == v
      ensures forall k :: k != key ==> r.Get(k) == Get(k)
      ensures key in keys ==> r.keys == keys
      ensures key !in keys ==> r.keys == keys + [key]
    {
      Record(if key in props then keys else keys + [key], props[key := v])
    }
  }

  const EmptyRecord: Record := Record([], map[])

  /** An object literal `{k0: v0, k1: v1, ...}`: later duplicates overwrite earlier ones. */
  function FromEntries(entries: seq<(string, Value)>): (r: Record)
    ensures r.Valid()
  {
    if |entries| == 0 then EmptyRecord
    else FromEntries(entries[..|entries| - 1]).Set(entries[|entries| - 1].0, entries[|entries| - 1].1)
  }

  /** In an object literal the value of a key is the one given last for it. */
  lemma {:induction false} FromEntriesGet(entries: seq<(string, Value)>, j: int)
    requires 0 <= j < |entries|
    requires forall k :: j < k < |entries| ==> entries[k].0 != entries[j].0
    ensures FromEntries(entries).Get(entries[j].0) == entries[j].1
    decreases |entries|
  {
    var n := |entries| - 1;
    if j < n {
      FromEntriesGet(entries[..n], j);
      assert entries[..n][j] == entries[j];
    }
  }

  /** The keys of a list of entries, in order. */
  function EntryKeys(entries: seq<(string, Value)>): (r: seq<string>)
    ensures |r| == |entries|
    ensures forall i :: 0 <= i < |entries| ==> r[i] == entries[i].0
  {
    seq(|entries|, i requires 0 <= i < |entries| => entries[i].0)
  }

  /** With distinct keys, an object literal lists its keys in the order written. */
  lemma {:induction false} FromEntriesKeys(entries: seq<(string, Value)>)
    requires forall i, j :: 0 <= i < j < |entries| ==> entries[i].0 != entries[j].0
    ensures FromEntries(entries).keys == EntryKeys(entries)
    decreases |entries|
  {
    if |entries| > 0 {
      var n := |entries| - 1;
      FromEntriesKeys(entries[..n]);
      var front := FromEntries(entries[..n]);
      var key := entries[n].0;
      forall i | 0 <= i < n
        ensures front.keys[i] != key
      {
        assert front.keys[i] == entries[..n][i].0 == entries[i].0;
      }
      assert key !in front.keys;
      EntryKeysSnoc(entries);
    }
  }

  lemma EntryKeysSnoc(entries: seq<(string, Value)>)
    requires |entries| > 0
    ensures EntryKeys(entries) == EntryKeys(entries[..|entries| - 1]) + [entries[|entries| - 1].0]
  {
  }

  /** The entries of an object literal with the given keys and values. */
  function Zip(keys: seq<string>, vals: seq<Value>): (r: seq<(string, Value)>)
    requires |keys| == |vals|
    ensures |r| == |keys|
    ensures forall j :: 0 <= j < |r| ==> r[j] == (keys[j], vals[j])
  {
    seq(|keys|, j requires 0 <= j < |keys| => (keys[j], vals[j]))
  }

  /** An object literal with distinct keys has those keys, in order, each with its value. */
  lemma LiteralRecord(keys: seq<string>, vals: seq<Value>)
    requires |keys| == |vals|
    requires forall i, j :: 0 <= i < j < |keys| ==> keys[i] != keys[j]
    ensures FromEntries(Zip(keys, vals)).keys == keys
    ensures forall j :: 0 <= j < |keys| ==> FromEntries(Zip(keys, vals)).Get(keys[j]) == vals[j]
  {
    var entries := Zip(keys, vals);
    FromEntriesKeys(entries);
    assert EntryKeys(entries) == keys;
    forall j | 0 <= j < |keys|
      ensures FromEntries(entries).Get(keys[j]) == vals[j]
    {
      FromEntriesGet(entries, j);
    }
  }

  /** JavaScript truthiness: `undefined`, `null`, `false`, `0` and `''` are falsy. */
  predicate Truthy(v: Value)
  {
    match v
    case Undefined => false
    case Null => false
    case Bool(b) => b
    case Num(n) => n != 0
    case Str(s) => s != ""
    case Arr(_, _) => true
    case Obj(_, _) => true
  }

  predicate IsNullish(v: Value)
  {
    v.Undefined? || v.Null?
  }

  /** `a || b`. */
  function Or(a: Value, b: Value): (r: Value)
    ensures Truthy(a) ==> r == a
    ensures !Truthy(a) ==> r == b
  {
    if Truthy(a) then a else b
  }

  /** `a === b`: primitives by value, arrays and objects by identity. Without `NaN`
      this is also `SameValueZero`, the equality of `includes` and of `Map` keys. */
  predicate StrictEq(a: Value, b: Value)
  {
    match (a, b)
    case (Undefined, Undefined) => true
    case (Null, Null) => true
    case (Bool(x), Bool(y)) => x == y
    case (Num(x), Num(y)) => x == y
    case (Str(x), Str(y)) => x == y
    case (Arr(r, _), Arr(q, _)) => r == q
    case (Obj(r, _), Obj(q, _)) => r == q
    case _ => false
  }

  /** `===` is an equivalence, and on everything but arrays and objects it is equality. */
  lemma StrictEqIsEquivalence(a: Value, b: Value, c: Value)
    ensures StrictEq(a, a)
    ensures StrictEq(a, b) ==> StrictEq(b, a)
    ensures StrictEq(a, b) && StrictEq(b, c) ==> StrictEq(a, c)
    ensures !a.Arr? && !a.Obj? ==> (StrictEq(a, b) <==> a == b)
  {
  }

  /** `String(v)`; an array renders as `v.join(',')`. */
  function ToStr(v: Value): string
    decreases v, 0
  {
    match v
    case Undefined => "undefined"
    case Null => "null"
    case Bool(b) => if b then "true" else "false"
    case Num(n) => IntToString(n)
    case Str(s) => s
    case Arr(_, items) => Join(seq(|items|, i requires 0 <= i < |items| => ElemStr(items[i])), ",")
    case Obj(_, _) => "[object Object]"
  }

  /** How `join` renders one element: `null` and `undefined` become the empty string. */
  function ElemStr(v: Value): string
    decreases v, 1
  {
    if IsNullish(v) then "" else ToStr(v)
  }

  /** `items.join(sep)`. */
  function JoinValues(items: seq<Value>, sep: string): string
  {
    Join(seq(|items|, i requires 0 <= i < |items| => ElemStr(items[i])), sep)
  }

  /** `v[key]` on a value that is not `null` or `undefined`: primitives and arrays have
      none of the keys the modelled code reads. */
  function Prop(v: Value, key: string): Value
  {
    if v.Obj? then v.rec.Get(key) else Undefined
  }

  /** `v[key]` on any value: reading a property of `null` or `undefined` throws a
      `TypeError`. */
  function GetProp(v: Value, key: string): (r: Result<Value>)
    ensures r.Thrown? <==> IsNullish(v)
    ensures v.Obj? ==> r == Ok(v.rec.Get(key))
  {
    if IsNullish(v) then Thrown(TypeError) else Ok(Prop(v, key))
  }

  /** Some element of `items` is `===` to `x`. */
  predicate InValues(items: seq<Value>, x: Value)
  {
    exists i :: 0 <= i < |items| && StrictEq(items[i], x)
  }

  /** `container.includes(x)`: membership for an array, substring search of `String(x)`
      for a string, and a `TypeError` for anything else, which has no `includes`. */
  function Includes(container: Value, x: Value): (r: Result<bool>)
    ensures r.Thrown? <==> !(container.Arr? || container.Str?)
    ensures container.Arr? ==> r == Ok(InValues(container.items, x))
    ensures container.Str? ==> r == Ok(Contains(container.s, ToStr(x)))
  {
    match container
    case Arr(_, items) => Ok(InValues(items, x))
    case Str(s) => Ok(Contains(s, ToStr(x)))
    case _ => Thrown(TypeError)
  }
}
