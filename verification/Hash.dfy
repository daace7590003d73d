/** The hash table of utils/hash.c: it is a finite map, and doubling it loses nothing. */
module Hash {
  import opened Options
  import opened Wire

  const INITIAL_SLOTS := 32
  const MAX_SLOTS := 0x8000_0000

  /** An item in the table: its key, and what it is embedded in. */
  datatype Item<T> = Item(key: nat, data: T)

  // ---------------------------------------------------------------- the hashing function

  /** Bitwise exclusive or. */
  function Xor(a: nat, b: nat): nat
    decreases a + b
  {
    if a == 0 && b == 0 then 0 else (a + b) % 2 + 2 * Xor(a / 2, b / 2)
  }

  /** nn_hash_key, in 32-bit arithmetic. */
  function HashKey(key: nat): nat {
    var k1 := Xor(Xor(key, 61), key / 0x1_0000);
    var k2 := (k1 + k1 * 8) % MAX32;
    var k3 := Xor(k2, k2 / 16);
    var k4 := k3 * 0x27d4_eb2d % MAX32;
    Xor(k4, k4 / 0x8000)
  }

  function SlotOf(key: nat, slots: nat): (s: nat)
    requires slots > 0
    ensures s < slots
  {
    HashKey(key) % slots
  }

  // ---------------------------------------------------------------- lists in slots

  type Slots<T> = seq<seq<Item<T>>>

  predicate DistinctKeys<T>(q: seq<Item<T>>) {
    forall i, j :: 0 <= i < j < |q| ==> q[i].key != q[j].key
  }

  /** Every item of the map is in the slot that its key selects, and nothing else is anywhere.
      (An equation, so that the verifier does not take it apart in every goal.) */
  ghost predicate Filed<T>(b: Slots<T>, m: map<nat, T>) {
    (&& |b| > 0
     && (forall s, x :: 0 <= s < |b| && x in b[s] ==> x.key in m && m[x.key] == x.data && SlotOf(x.key, |b|) == s)
     && (forall k :: k in m ==> Item(k, m[k]) in b[SlotOf(k, |b|)])
     && (forall s :: 0 <= s < |b| ==> DistinctKeys(b[s]))) == true
  }

  /** The list without the item of this key. */
  function Drop<T>(q: seq<Item<T>>, key: nat): seq<Item<T>> {
    if q == [] then [] else if q[0].key == key then q[1..] else [q[0]] + Drop(q[1..], key)
  }

  lemma {:induction false} DropMember<T>(q: seq<Item<T>>, key: nat, x: Item<T>)
    requires DistinctKeys(q)
    ensures x in Drop(q, key) <==> x in q && x.key != key
  {
    if q != [] {
      DropMember(q[1..], key, x);
      assert x in q <==> x == q[0] || x in q[1..];
    }
  }

  lemma {:induction false} DropSpec<T>(q: seq<Item<T>>, key: nat)
    requires DistinctKeys(q)
    ensures DistinctKeys(Drop(q, key))
    ensures forall x :: x in Drop(q, key) <==> x in q && x.key != key
  {
    forall x ensures x in Drop(q, key) <==> x in q && x.key != key {
      DropMember(q, key, x);
    }
    if q != [] && q[0].key != key {
      var r := Drop(q[1..], key);
      DropSpec(q[1..], key);
      forall i | 0 <= i < |r| ensures r[i].key != q[0].key {
        DropMember(q[1..], key, r[i]);
      }
    }
  }

  /** Putting an item at the end of its slot. */
  lemma FiledInsert<T>(b: Slots<T>, m: map<nat, T>, key: nat, data: T)
    requires Filed(b, m) && key !in m
    ensures var s := SlotOf(key, |b|);
            && (forall x :: x in b[s] ==> x.key != key)
            && Filed(b[s := b[s] + [Item(key, data)]], m[key := data])
  {
    var s := SlotOf(key, |b|);
    assert forall x :: x in b[s] ==> x.key != key;
    var q := b[s] + [Item(key, data)];
    assert DistinctKeys(q) by {
      forall i | 0 <= i < |b[s]| ensures b[s][i].key != key { assert b[s][i] in b[s]; }
    }
    assert forall x :: x in q <==> x in b[s] || x == Item(key, data);
  }

  lemma FiledErase<T>(b: Slots<T>, m: map<nat, T>, key: nat)
    requires Filed(b, m)
    ensures var s := SlotOf(key, |b|); Filed(b[s := Drop(b[s], key)], m - {key})
  {
    var s := SlotOf(key, |b|);
    DropSpec(b[s], key);
    FiledWithout(b, m, key, Drop(b[s], key));
  }

  lemma FiledWithout<T>(b: Slots<T>, m: map<nat, T>, key: nat, q: seq<Item<T>>)
    requires Filed(b, m) && DistinctKeys(q)
    requires forall x :: x in q <==> x in b[SlotOf(key, |b|)] && x.key != key
    ensures Filed(b[SlotOf(key, |b|) := q], m - {key})
  {
    var b' := b[SlotOf(key, |b|) := q];
    forall s: int, x: Item<T> | 0 <= s < |b| && x in b'[s] ensures x.key != key && x in b[s] {
    }
  }

  /** All lists being empty, so is the map. */
  lemma FiledEmpty<T>(b: Slots<T>, m: map<nat, T>)
    requires Filed(b, m) && forall s :: 0 <= s < |b| ==> b[s] == []
    ensures m == map[]
  {
    forall k ensures k !in m {
      assert b[SlotOf(k, |b|)] == [];
    }
  }

  /** The sizes a table can have: the initial one, doubled n times. */
  function Size(n: nat): (s: nat)
    ensures s > 0
  {
    if n == 0 then INITIAL_SLOTS else 2 * Size(n - 1)
  }

  lemma {:induction false} SizeGrows(m: nat, n: nat)
    requires m <= n
    ensures Size(m) <= Size(n)
  {
    if m < n { SizeGrows(m, n - 1); }
  }

  predicate IsSize(s: nat) {
    s == INITIAL_SLOTS || (s > INITIAL_SLOTS && s % 2 == 0 && IsSize(s / 2))
  }

  lemma {:induction false} SizeOf(s: nat) returns (n: nat)
    requires IsSize(s)
    ensures s == Size(n)
  {
    if s == INITIAL_SLOTS { return 0; }
    n := SizeOf(s / 2);
    n := n + 1;
  }

  lemma LargestSize()
    ensures Size(26) == MAX_SLOTS
  {
    assert Size(5) == 0x400 && Size(10) == 0x8000 && Size(15) == 0x10_0000;
    assert Size(20) == 0x200_0000 && Size(25) == 0x4000_0000;
  }

  /** The bound 0x80000000 is one of the sizes, so doubling never goes beyond it. */
  lemma NextSize(s: nat)
    requires IsSize(s) && s < MAX_SLOTS
    ensures IsSize(2 * s) && 2 * s <= MAX_SLOTS
  {
    var n := SizeOf(s);
    LargestSize();
    if n < 26 { SizeGrows(n + 1, 26); } else { SizeGrows(26, n); }
    Doubled(s);
  }

  lemma Doubled(s: nat)
    requires IsSize(s)
    ensures IsSize(2 * s)
  {
    var d := 2 * s;
    assert d / 2 == s && d % 2 == 0;
    assert IsSize(d);
  }

  // ---------------------------------------------------------------- struct nn_hash

  class Hash<T(==)> {
    var slots: nat
    var items: nat
    var table: array<seq<Item<T>>>
    ghost var contents: map<nat, T>

    ghost predicate Valid()
      reads this, table
    {
      && slots == table.Length && Filed(table[..], contents) && items == |contents|
      && IsSize(slots) && slots <= MAX_SLOTS
      && (items * 2 <= slots || slots == MAX_SLOTS)
    }

    /** nn_hash_init. */
    constructor ()
      ensures Valid() && contents == map[] && fresh(table)
    {
      slots, items, contents := INITIAL_SLOTS, 0, map[];
      table := new seq<Item<T>>[INITIAL_SLOTS](_ => []);
    }

    /** nn_hash_get. */
    method Get(key: nat) returns (r: Option<T>)
      requires Valid()
      ensures r == if key in contents then Some(contents[key]) else None
    {
      var slot := SlotOf(key, slots);
      var q := table[slot];
      var it := 0;
      while it < |q|
        invariant it <= |q| && forall j :: 0 <= j < it ==> q[j].key != key
      {
        if q[it].key == key {
          assert q[it] in table[..][slot];
          return Some(q[it].data);
        }
        it := it + 1;
      }
      assert q == table[..][slot];
      return None;
    }

    /** nn_hash_insert.  That the key is new is asserted at line 101. */
    method Insert(key: nat, data: T)
      requires Valid() && key !in contents
      modifies this, table
      ensures Valid() && contents == old(contents)[key := data]
      ensures table == old(table) || fresh(table)
    {
      Append(key, data);
      if items * 2 > slots && slots < MAX_SLOTS {
        NextSize(slots);
        Rehash();
      }
    }

    /** Lines 72-82. */
    method Append(key: nat, data: T)
      requires slots == table.Length && Filed(table[..], contents) && items == |contents| && key !in contents
      modifies `items, `contents, table
      ensures Filed(table[..], contents) && items == |contents| == old(items) + 1
      ensures contents == old(contents)[key := data]
    {
      var i := SlotOf(key, slots);
      FiledInsert(table[..], contents, key, data);
      assert forall x :: x in table[..][i] ==> x.key != key;
      Put(table, i, Item(key, data));
      contents := contents[key := data];
      items := items + 1;
    }

    /** nn_hash_erase. */
    method Erase(key: nat)
      requires Valid() && key in contents
      modifies this, table
      ensures Valid() && contents == old(contents) - {key} && table == old(table)
    {
      var slot := SlotOf(key, slots);
      FiledErase(table[..], contents, key);
      Cut(table, slot, key);
      contents := contents - {key};
      items := items - 1;
    }

    /** nn_hash_rehash. */
    method Rehash()
      requires slots == table.Length && slots < MAX_SLOTS && Filed(table[..], contents)
      modifies `slots, `table, table
      ensures slots == 2 * old(slots) == table.Length && Filed(table[..], contents) && fresh(table)
    {
      var oldarray := table;
      slots := slots * 2;
      var newarray := new seq<Item<T>>[slots](_ => []);
      MoveAll(oldarray, newarray, contents);
      table := newarray;
    }
  }

  lemma FiledNothing<T>(b: Slots<T>)
    requires |b| > 0 && forall s :: 0 <= s < |b| ==> b[s] == []
    ensures Filed(b, map[])
  {
  }

  /** One item goes from the one map to the other. */
  lemma MovesOne<T>(left: map<nat, T>, moved: map<nat, T>, key: nat, data: T)
    requires left.Keys !! moved.Keys && key in left && left[key] == data
    ensures (left - {key}).Keys !! moved[key := data].Keys
    ensures (left - {key}) + moved[key := data] == left + moved
  {
  }

  lemma FirstIsFiled<T>(b: Slots<T>, m: map<nat, T>, i: nat)
    requires Filed(b, m) && i < |b| && b[i] != []
    ensures var x := b[i][0]; x.key in m && m[x.key] == x.data && SlotOf(x.key, |b|) == i
  {
    assert b[i][0] in b[i];
  }

  /** Lines 73-84: all items go from the old slots to the new ones. */
  method MoveAll<T>(oldarray: array<seq<Item<T>>>, newarray: array<seq<Item<T>>>, ghost m: map<nat, T>)
    requires oldarray != newarray && newarray.Length > 0 && Filed(oldarray[..], m)
    requires forall s :: 0 <= s < newarray.Length ==> newarray[s] == []
    modifies oldarray, newarray
    ensures Filed(newarray[..], m)
    ensures forall s :: 0 <= s < oldarray.Length ==> oldarray[s] == []
  {
    FiledNothing(newarray[..]);
    ghost var left, moved := MoveSlots(oldarray, newarray, m);
    FiledEmpty(oldarray[..], left);
    assert moved == m;
  }

  method MoveSlots<T>(oldarray: array<seq<Item<T>>>, newarray: array<seq<Item<T>>>, ghost m: map<nat, T>)
    returns (ghost left: map<nat, T>, ghost moved: map<nat, T>)
    requires oldarray != newarray && Filed(oldarray[..], m) && Filed(newarray[..], map[])
    modifies oldarray, newarray
    ensures Filed(oldarray[..], left) && Filed(newarray[..], moved) && left + moved == m
    ensures forall s :: 0 <= s < oldarray.Length ==> oldarray[s] == []
  {
    left, moved := m, map[];
    var i := 0;
    while i != oldarray.Length
      invariant 0 <= i <= oldarray.Length
      invariant Filed(oldarray[..], left) && Filed(newarray[..], moved)
      invariant left.Keys !! moved.Keys && left + moved == m
      invariant forall s :: 0 <= s < i ==> oldarray[s] == []
    {
      left, moved := MoveList(oldarray, newarray, i, left, moved);
      i := i + 1;
    }
  }

  /** Lines 74-81: all items of an old slot. */
  method MoveList<T>(oldarray: array<seq<Item<T>>>, newarray: array<seq<Item<T>>>, i: nat,
                     ghost left: map<nat, T>, ghost moved: map<nat, T>)
    returns (ghost left': map<nat, T>, ghost moved': map<nat, T>)
    requires oldarray != newarray && i < oldarray.Length
    requires Filed(oldarray[..], left) && Filed(newarray[..], moved) && left.Keys !! moved.Keys
    modifies oldarray, newarray
    ensures Filed(oldarray[..], left') && Filed(newarray[..], moved')
    ensures left'.Keys !! moved'.Keys && left' + moved' == left + moved
    ensures oldarray[i] == []
    ensures forall s :: 0 <= s < oldarray.Length && s != i ==> oldarray[s] == old(oldarray[s])
  {
    left', moved' := left, moved;
    while oldarray[i] != []
      invariant Filed(oldarray[..], left') && Filed(newarray[..], moved')
      invariant left'.Keys !! moved'.Keys && left' + moved' == left + moved
      invariant forall s :: 0 <= s < oldarray.Length && s != i ==> oldarray[s] == old(oldarray[s])
      decreases |oldarray[i]|
    {
      left', moved' := MoveFirst(oldarray, newarray, i, left', moved');
    }
  }

  /** nn_list_insert at the end of a slot. */
  method Put<T>(a: array<seq<Item<T>>>, s: nat, x: Item<T>)
    requires s < a.Length
    modifies a
    ensures a[..] == old(a[..])[s := old(a[s]) + [x]]
  {
    a[s] := a[s] + [x];
  }

  /** nn_list_erase of the item with this key. */
  method Cut<T>(a: array<seq<Item<T>>>, s: nat, key: nat)
    requires s < a.Length
    modifies a
    ensures a[..] == old(a[..])[s := Drop(old(a[s]), key)]
  {
    a[s] := Drop(a[s], key);
  }

  /** Lines 75-80: the first item of an old slot goes to its new one. */
  method MoveFirst<T>(oldarray: array<seq<Item<T>>>, newarray: array<seq<Item<T>>>, i: nat,
                      ghost left: map<nat, T>, ghost moved: map<nat, T>)
    returns (ghost left': map<nat, T>, ghost moved': map<nat, T>)
    requires oldarray != newarray && i < oldarray.Length && oldarray[i] != []
    requires Filed(oldarray[..], left) && Filed(newarray[..], moved) && left.Keys !! moved.Keys
    modifies oldarray, newarray
    ensures Filed(oldarray[..], left') && Filed(newarray[..], moved')
    ensures left'.Keys !! moved'.Keys && left' + moved' == left + moved
    ensures oldarray[i] == old(oldarray[i])[1..]
    ensures forall s :: 0 <= s < oldarray.Length && s != i ==> oldarray[s] == old(oldarray[s])
  {
    var hitm := oldarray[i][0];
    FirstIsFiled(oldarray[..], left, i);
    MovesOne(left, moved, hitm.key, hitm.data);
    FiledErase(oldarray[..], left, hitm.key);
    FiledInsert(newarray[..], moved, hitm.key, hitm.data);
    Cut(oldarray, i, hitm.key);
    var newslot := SlotOf(hitm.key, newarray.Length);
    Put(newarray, newslot, hitm);
    left', moved' := left - {hitm.key}, moved[hitm.key := hitm.data];
  }
}
