/** A .NET `Dictionary<K, V>` as its entry slots. Removing a key frees its
    slot and pushes it on the free list; a new key takes the most recently
    freed slot, or a new slot at the end when none is free. Enumeration
    visits the used slots in slot order, so after a removal a new key can
    be enumerated before keys added earlier. */
module Dicts {
  import opened Wrappers

  datatype Slot<K(==), V(==)> = Used(key: K, value: V) | Freed

  datatype Dict<K(==), V(==)> = Dict(slots: seq<Slot<K, V>>, freeList: seq<nat>)

  /** A new dictionary, and what `Clear` leaves: no slots, nothing free. */
  function Empty<K(==), V(==)>(): (r: Dict<K, V>)
    ensures Valid(r) && |r.slots| == 0 && |r.freeList| == 0
  {
    Dict([], [])
  }

  /** Every key occupies at most one slot, and the free list holds every
      freed slot exactly once. */
  predicate Valid<K(==), V(==)>(d: Dict<K, V>) {
    && (forall i, j | 0 <= i < j < |d.slots| && d.slots[i].Used? && d.slots[j].Used? ::
          d.slots[i].key != d.slots[j].key)
    && (forall n | 0 <= n < |d.freeList| :: d.freeList[n] < |d.slots| && d.slots[d.freeList[n]].Freed?)
    && (forall i | 0 <= i < |d.slots| && d.slots[i].Freed? :: i in d.freeList)
    && (forall a, b | 0 <= a < b < |d.freeList| :: d.freeList[a] != d.freeList[b])
  }

  /** Slot `i` holds key `k`. */
  predicate KeyAt<K(==), V(==)>(s: seq<Slot<K, V>>, i: int, k: K) {
    0 <= i < |s| && s[i].Used? && s[i].key == k
  }

  /** Slot `i` holds value `v`. */
  predicate ValueAt<K(==), V(==)>(s: seq<Slot<K, V>>, i: int, v: V) {
    0 <= i < |s| && s[i].Used? && s[i].value == v
  }

  predicate HasKey<K(==), V(==)>(d: Dict<K, V>, k: K) {
    exists i | 0 <= i < |d.slots| :: KeyAt(d.slots, i, k)
  }

  /** Some entry holds `v`. */
  predicate HasValue<K(==), V(==)>(d: Dict<K, V>, v: V) {
    exists i | 0 <= i < |d.slots| :: ValueAt(d.slots, i, v)
  }

  /** The entry `(k, v)` is in the dictionary. */
  predicate Holds<K(==), V(==)>(d: Dict<K, V>, k: K, v: V) {
    Used(k, v) in d.slots
  }

  /** The slot holding `k`, if any. */
  function KeyIndex<K(==), V(==)>(s: seq<Slot<K, V>>, k: K): (r: Option<nat>)
    ensures r.None? <==> forall i :: !KeyAt(s, i, k)
    ensures r.Some? ==> KeyAt(s, r.value, k)
  {
    if |s| == 0 then None
    else if s[0].Used? && s[0].key == k then assert KeyAt(s, 0, k); Some(0)
    else match KeyIndex(s[1..], k)
      case None =>
        assert forall i :: KeyAt(s, i, k) ==> i == 0 || KeyAt(s[1..], i - 1, k);
        None
      case Some(i) => assert KeyAt(s, i + 1, k); Some(i + 1)
  }

  /** `TryGetValue`. */
  function Get<K(==), V(==)>(d: Dict<K, V>, k: K): (r: Option<V>)
    ensures r.None? <==> !HasKey(d, k)
    ensures r.Some? ==> Holds(d, k, r.value)
  {
    match KeyIndex(d.slots, k)
    case None => None
    case Some(i) => Some(d.slots[i].value)
  }

  /** `d[k] = v`: an existing key is overwritten in its slot; a new key takes
      the most recently freed slot, or else a new slot at the end. */
  function Set<K(==), V(==)>(d: Dict<K, V>, k: K, v: V): (r: Dict<K, V>)
    requires Valid(d)
    ensures Valid(r)
    ensures HasKey(d, k) ==>
      r.freeList == d.freeList && KeyIndex(r.slots, k) == KeyIndex(d.slots, k)
    ensures !HasKey(d, k) && |d.freeList| > 0 ==>
      KeyIndex(r.slots, k) == Some(d.freeList[0]) && r.freeList == d.freeList[1..]
    ensures !HasKey(d, k) && |d.freeList| == 0 ==>
      KeyIndex(r.slots, k) == Some(|d.slots|) && r.freeList == []
    ensures r.slots[KeyIndex(r.slots, k).value] == Used(k, v)
    ensures |d.slots| <= |r.slots| <= |d.slots| + 1
    ensures forall i | 0 <= i < |d.slots| && d.slots[i].Used? && d.slots[i].key != k :: r.slots[i] == d.slots[i]
    ensures forall i | 0 <= i < |r.slots| && r.slots[i].Used? ::
      r.slots[i] == Used(k, v) || (i < |d.slots| && r.slots[i] == d.slots[i])
  {
    match KeyIndex(d.slots, k)
    case Some(i) =>
      OverwriteValid(d, k, v, i);
      Dict(d.slots[i := Used(k, v)], d.freeList)
    case None =>
      if |d.freeList| > 0 then
        FillFreedValid(d, k, v);
        Dict(d.slots[d.freeList[0] := Used(k, v)], d.freeList[1..])
      else
        AppendValid(d, k, v);
        Dict(d.slots + [Used(k, v)], [])
  }

  lemma OverwriteValid<K, V>(d: Dict<K, V>, k: K, v: V, i: nat)
    requires Valid(d) && KeyAt(d.slots, i, k)
    ensures var r := Dict(d.slots[i := Used(k, v)], d.freeList);
      Valid(r) && KeyIndex(r.slots, k) == Some(i)
  {
    var r := Dict(d.slots[i := Used(k, v)], d.freeList);
    KeyIndexUnique(r, k, i);
  }

  lemma FillFreedValid<K, V>(d: Dict<K, V>, k: K, v: V)
    requires Valid(d) && !HasKey(d, k) && |d.freeList| > 0
    ensures var r := Dict(d.slots[d.freeList[0] := Used(k, v)], d.freeList[1..]);
      Valid(r) && KeyIndex(r.slots, k) == Some(d.freeList[0])
  {
    var i := d.freeList[0];
    var r := Dict(d.slots[i := Used(k, v)], d.freeList[1..]);
    forall a, b | 0 <= a < b < |r.slots| && r.slots[a].Used? && r.slots[b].Used?
      ensures r.slots[a].key != r.slots[b].key
    {
      if a == i { assert !KeyAt(d.slots, b, k); }
      else if b == i { assert !KeyAt(d.slots, a, k); }
    }
    forall n | 0 <= n < |r.freeList| ensures r.freeList[n] != i {
      assert r.freeList[n] == d.freeList[n + 1];
    }
    forall j | 0 <= j < |r.slots| && r.slots[j].Freed? ensures j in r.freeList {
      var n :| 0 <= n < |d.freeList| && d.freeList[n] == j;
      assert n != 0;
      assert r.freeList[n - 1] == j;
    }
    KeyIndexUnique(r, k, i);
  }

  lemma AppendValid<K, V>(d: Dict<K, V>, k: K, v: V)
    requires Valid(d) && !HasKey(d, k) && |d.freeList| == 0
    ensures var r := Dict(d.slots + [Used(k, v)], []);
      Valid(r) && KeyIndex(r.slots, k) == Some(|d.slots|)
  {
    var r := Dict(d.slots + [Used(k, v)], []);
    assert forall j | 0 <= j < |d.slots| :: r.slots[j] == d.slots[j];
    forall a, b | 0 <= a < b < |r.slots| && r.slots[a].Used? && r.slots[b].Used?
      ensures r.slots[a].key != r.slots[b].key
    {
      if b == |d.slots| { assert !KeyAt(d.slots, a, k); }
    }
    KeyIndexUnique(r, k, |d.slots|);
  }

  /** The slots and free list `d[k] = v` leaves for a new key. */
  lemma SetNewShape<K, V>(d: Dict<K, V>, k: K, v: V)
    requires Valid(d) && !HasKey(d, k)
    ensures |d.freeList| > 0 ==> Set(d, k, v) == Dict(d.slots[d.freeList[0] := Used(k, v)], d.freeList[1..])
    ensures |d.freeList| == 0 ==> Set(d, k, v) == Dict(d.slots + [Used(k, v)], [])
  {
  }

  /** The slots and free list `Remove(k)` leaves when slot `i` holds `k`. */
  lemma RemoveShape<K, V>(d: Dict<K, V>, k: K, i: nat)
    requires Valid(d) && KeyAt(d.slots, i, k)
    ensures Remove(d, k) == Dict(d.slots[i := Freed], [i] + d.freeList)
  {
    KeyIndexUnique(d, k, i);
  }

  /** In a valid dictionary the slot holding a key is the one `KeyIndex` finds. */
  lemma KeyIndexUnique<K, V>(d: Dict<K, V>, k: K, i: nat)
    requires Valid(d) && KeyAt(d.slots, i, k)
    ensures KeyIndex(d.slots, k) == Some(i)
  {
    var j := KeyIndex(d.slots, k).value;
    assert KeyAt(d.slots, j, k);
  }

  /** `Remove(k)`: the key's slot is freed and becomes the head of the free
      list; every other slot is left alone. A missing key changes nothing. */
  function Remove<K(==), V(==)>(d: Dict<K, V>, k: K): (r: Dict<K, V>)
    requires Valid(d)
    ensures Valid(r) && !HasKey(r, k) && |r.slots| == |d.slots|
    ensures !HasKey(d, k) ==> r == d
    ensures HasKey(d, k) ==>
      && r.freeList == [KeyIndex(d.slots, k).value] + d.freeList
      && r.slots[KeyIndex(d.slots, k).value].Freed?
    ensures forall i | 0 <= i < |d.slots| && !KeyAt(d.slots, i, k) :: r.slots[i] == d.slots[i]
    ensures forall i | 0 <= i < |r.slots| && r.slots[i].Used? :: r.slots[i] == d.slots[i]
  {
    match KeyIndex(d.slots, k)
    case None => d
    case Some(i) =>
      var r := Dict(d.slots[i := Freed], [i] + d.freeList);
      FreeSlotValid(d, i);
      r
  }

  /** Freeing a used slot and pushing it on the free list keeps the
      dictionary valid. */
  lemma FreeSlotValid<K, V>(d: Dict<K, V>, i: nat)
    requires Valid(d) && i < |d.slots| && d.slots[i].Used?
    ensures Valid(Dict(d.slots[i := Freed], [i] + d.freeList))
  {
    var r := Dict(d.slots[i := Freed], [i] + d.freeList);
    assert i !in d.freeList;
    forall n | 0 <= n < |r.freeList| ensures r.freeList[n] < |r.slots| && r.slots[r.freeList[n]].Freed? {
      if n > 0 { assert r.freeList[n] == d.freeList[n - 1]; }
    }
    forall a, b | 0 <= a < b < |r.freeList| ensures r.freeList[a] != r.freeList[b] {
      assert r.freeList[b] == d.freeList[b - 1];
      if a > 0 { assert r.freeList[a] == d.freeList[a - 1]; }
    }
  }

  /** The key of the first used slot, in slot order, holding `v`. */
  function FirstKeyIn<K(==), V(==)>(s: seq<Slot<K, V>>, v: V): (r: Option<K>)
    ensures r.None? <==> forall i :: !ValueAt(s, i, v)
    ensures r.Some? ==> Used(r.value, v) in s
  {
    if |s| == 0 then None
    else if s[0].Used? && s[0].value == v then assert ValueAt(s, 0, v); Some(s[0].key)
    else
      var t := FirstKeyIn(s[1..], v);
      assert forall i :: ValueAt(s, i, v) ==> i == 0 || ValueAt(s[1..], i - 1, v);
      if t.Some? then
        var j :| 0 <= j < |s[1..]| && s[1..][j] == Used(t.value, v);
        assert ValueAt(s, j + 1, v);
        t
      else t
  }

  /** The first key, in enumeration order, whose value is `v`. */
  function FirstKeyOf<K(==), V(==)>(d: Dict<K, V>, v: V): (r: Option<K>)
    ensures r.None? <==> !HasValue(d, v)
    ensures r.Some? ==> Holds(d, r.value, v)
  {
    FirstKeyIn(d.slots, v)
  }

  /** Slot `i` is the earliest used slot holding `v`. */
  predicate FirstWithValue<K(==), V(==)>(s: seq<Slot<K, V>>, v: V, i: int) {
    ValueAt(s, i, v) && forall j | 0 <= j < i :: !ValueAt(s, j, v)
  }

  /** `FirstKeyOf` returns the key of the earliest used slot holding `v`. */
  lemma FirstKeyOfIsFirst<K, V>(d: Dict<K, V>, v: V)
    ensures FirstKeyOf(d, v).Some? ==>
      exists i :: FirstWithValue(d.slots, v, i) && d.slots[i].key == FirstKeyOf(d, v).value
  {
    FirstKeyInIsFirst(d.slots, v);
  }

  lemma {:induction false} FirstKeyInIsFirst<K, V>(s: seq<Slot<K, V>>, v: V)
    ensures FirstKeyIn(s, v).Some? ==>
      exists i :: FirstWithValue(s, v, i) && s[i].key == FirstKeyIn(s, v).value
    decreases |s|
  {
    if |s| > 0 {
      if s[0].Used? && s[0].value == v {
        assert FirstWithValue(s, v, 0);
      } else {
        var t := s[1..];
        FirstKeyInIsFirst(t, v);
        if FirstKeyIn(t, v).Some? {
          var i :| FirstWithValue(t, v, i) && t[i].key == FirstKeyIn(t, v).value;
          assert FirstWithValue(s, v, i + 1) by {
            forall j | 0 <= j < i + 1 ensures !ValueAt(s, j, v) {
              if j > 0 { assert !ValueAt(t, j - 1, v); }
            }
          }
        }
      }
    }
  }

  /** After `d[k] = v`, looking up `k` gives `v` and every other key is
      unchanged. */
  lemma SetGet<K, V>(d: Dict<K, V>, k: K, v: V, k2: K)
    requires Valid(d)
    ensures Get(Set(d, k, v), k2) == if k2 == k then Some(v) else Get(d, k2)
  {
    var r := Set(d, k, v);
    if k2 != k {
      match KeyIndex(d.slots, k2)
      case Some(j) =>
        assert r.slots[j] == d.slots[j];
        KeyIndexUnique(r, k2, j);
      case None =>
        forall i | 0 <= i < |r.slots| && KeyAt(r.slots, i, k2) ensures false {
          assert r.slots[i] == d.slots[i];
          assert KeyAt(d.slots, i, k2);
        }
    }
  }

  /** In a valid dictionary, the entry `(k, v)` is what `Get(k)` finds. */
  lemma GetOfEntry<K, V>(d: Dict<K, V>, k: K, v: V)
    requires Valid(d) && Holds(d, k, v)
    ensures Get(d, k) == Some(v)
  {
    var m :| 0 <= m < |d.slots| && d.slots[m] == Used(k, v);
    KeyIndexUnique(d, k, m);
  }

  /** Removing `k` forgets `k` and keeps every other key. */
  lemma RemoveGet<K, V>(d: Dict<K, V>, k: K, k2: K)
    requires Valid(d)
    ensures Get(Remove(d, k), k2) == if k2 == k then None else Get(d, k2)
  {
    var r := Remove(d, k);
    if k2 != k {
      match KeyIndex(d.slots, k2)
      case Some(j) =>
        assert r.slots[j] == d.slots[j];
        KeyIndexUnique(r, k2, j);
      case None =>
        forall i | 0 <= i < |r.slots| && KeyAt(r.slots, i, k2) ensures false {
          assert KeyAt(d.slots, i, k2);
        }
    }
  }

  /** The .NET slot reuse: after `k` is removed, the next new key takes the
      slot `k` had, so it is enumerated where `k` was. */
  lemma RemoveThenAddReusesSlot<K, V>(d: Dict<K, V>, k: K, k2: K, v: V)
    requires Valid(d) && HasKey(d, k) && k2 != k && !HasKey(d, k2)
    ensures KeyIndex(Set(Remove(d, k), k2, v).slots, k2) == KeyIndex(d.slots, k)
  {
    var r := Remove(d, k);
    assert !HasKey(r, k2) by {
      forall i | 0 <= i < |r.slots| && KeyAt(r.slots, i, k2) ensures false {
        assert KeyAt(d.slots, i, k2);
      }
    }
  }

  /** An entry's value is held. */
  lemma HoldsHasValue<K, V>(d: Dict<K, V>, k: K, v: V)
    requires Holds(d, k, v)
    ensures HasValue(d, v)
  {
    var i :| 0 <= i < |d.slots| && d.slots[i] == Used(k, v);
    assert ValueAt(d.slots, i, v);
  }

  /** No value is held by two entries. */
  predicate Injective<K(==), V(==)>(d: Dict<K, V>) {
    forall i, j | 0 <= i < j < |d.slots| && d.slots[i].Used? && d.slots[j].Used? ::
      d.slots[i].value != d.slots[j].value
  }

  /** In an injective dictionary an entry is determined by its value. */
  lemma SameValueSameKey<K, V>(d: Dict<K, V>, k1: K, k2: K, v: V)
    requires Injective(d) && Holds(d, k1, v) && Holds(d, k2, v)
    ensures k1 == k2
  {
    var i :| 0 <= i < |d.slots| && d.slots[i] == Used(k1, v);
    var j :| 0 <= j < |d.slots| && d.slots[j] == Used(k2, v);
    assert i == j;
  }

  /** Removing a key keeps the values distinct. */
  lemma RemoveInjective<K, V>(d: Dict<K, V>, k: K)
    requires Valid(d) && Injective(d)
    ensures Injective(Remove(d, k))
  {
    var r := Remove(d, k);
    forall i, j | 0 <= i < j < |r.slots| && r.slots[i].Used? && r.slots[j].Used?
      ensures r.slots[i].value != r.slots[j].value
    {
      assert r.slots[i] == d.slots[i] && r.slots[j] == d.slots[j];
    }
  }

  /** Giving `k` a value no entry holds keeps the values distinct. */
  lemma SetInjective<K, V>(d: Dict<K, V>, k: K, v: V)
    requires Valid(d) && Injective(d) && !HasValue(d, v)
    ensures Injective(Set(d, k, v))
  {
    var r := Set(d, k, v);
    forall i, j | 0 <= i < j < |r.slots| && r.slots[i].Used? && r.slots[j].Used?
      ensures r.slots[i].value != r.slots[j].value
    {
      if r.slots[i] == Used(k, v) {
        if r.slots[j] != Used(k, v) {
          assert !ValueAt(d.slots, j, v);
        }
      } else if r.slots[j] == Used(k, v) {
        assert !ValueAt(d.slots, i, v);
      }
    }
  }

  /** Removing the key of the only entry holding `v` leaves no entry holding
      `v`. */
  lemma RemoveOwner<K, V>(d: Dict<K, V>, k: K, v: V)
    requires Valid(d) && Injective(d) && Holds(d, k, v)
    ensures !HasValue(Remove(d, k), v)
  {
    var r := Remove(d, k);
    forall i | 0 <= i < |r.slots| && ValueAt(r.slots, i, v) ensures false {
      assert r.slots[i] == d.slots[i];
      assert Holds(d, d.slots[i].key, v);
      SameValueSameKey(d, d.slots[i].key, k, v);
      assert KeyAt(r.slots, i, k);
    }
  }
}
