/** The intrusive doubly linked list of utils/list.c. */
module List {

  /** `inlist` is false when prev and next hold NN_LIST_NOTINLIST. */
  class Item {
    var prev: Item?
    var next: Item?
    var inlist: bool

    /** nn_list_item_init. */
    constructor ()
      ensures !inlist
    {
      prev, next, inlist := null, null, false;
    }
  }

  function At(items: seq<Item>, i: int): Item? {
    if 0 <= i < |items| then items[i] else null
  }

  /** The place of an item, or the end for NULL. */
  function Index(items: seq<Item>, it: Item?): (i: nat)
    ensures i <= |items| && (i < |items| ==> items[i] == it)
    ensures it == null || it !in items ==> i == |items|
    ensures it != null && it in items ==> i < |items|
  {
    if items == [] then 0 else if items[0] == it then 0 else 1 + Index(items[1..], it)
  }

  /** The list with an item put in front of `it`, or at the end when `it` is NULL. */
  function With(items: seq<Item>, item: Item, it: Item?): seq<Item> {
    var k := Index(items, it);
    items[..k] + [item] + items[k..]
  }

  /** The list without the item. */
  function Without(items: seq<Item>, item: Item): seq<Item>
    requires item in items
  {
    var k := Index(items, item);
    items[..k] + items[k + 1..]
  }

  /** The item behind an item. */
  function Behind(items: seq<Item>, item: Item): Item? {
    At(items, Index(items, item) + 1)
  }

  predicate Distinct(items: seq<Item>) {
    forall i, j :: 0 <= i < j < |items| ==> items[i] != items[j]
  }

  ghost predicate Links(item: Item, prev: Item?, next: Item?)
    reads item
  {
    item.inlist && item.prev == prev && item.next == next
  }

  /** The item at place i points to its neighbours.  (A predicate of its own, so that the verifier does not
      walk along the list.) */
  ghost predicate Linked(items: seq<Item>, i: int)
    requires 0 <= i < |items|
    reads items
  {
    Links(items[i], At(items, i - 1), At(items, i + 1))
  }

  /** The items are linked in this order, and first and last point to the ends. */
  ghost predicate Chain(items: seq<Item>, first: Item?, last: Item?)
    reads items
  {
    && first == At(items, 0) && last == At(items, |items| - 1)
    && forall i :: 0 <= i < |items| ==> Linked(items, i)
  }

  /** (An equation, so that the verifier does not take it apart in every goal.) */
  ghost predicate Good(items: seq<Item>, first: Item?, last: Item?)
    reads items
  {
    (Distinct(items) && Chain(items, first, last)) == true
  }

  /** The links while an item is put in at place k: those of the items on both sides point to it. */
  ghost predicate Hooked(items: seq<Item>, k: nat, item: Item)
    reads items
  {
    (&& (forall i :: 0 <= i < |items| && i != k - 1 && i != k ==> Linked(items, i))
     && (0 < k <= |items| ==> Links(items[k - 1], At(items, k - 2), item))
     && (k < |items| ==> Links(items[k], item, At(items, k + 1)))) == true
  }

  lemma InsertedChain(items: seq<Item>, k: nat, item: Item, first: Item?, last: Item?)
    requires k <= |items| && Hooked(items, k, item)
    requires item.inlist && item.prev == At(items, k - 1) && item.next == At(items, k)
    requires first == (if k == 0 then item else At(items, 0))
    requires last == if k == |items| then item else At(items, |items| - 1)
    ensures Chain(items[..k] + [item] + items[k..], first, last)
  {
    var r := items[..k] + [item] + items[k..];
    forall i | 0 <= i < |r| ensures Linked(r, i) {
      if i < k - 1 { assert Linked(items, i); }
      if i > k + 1 { assert Linked(items, i - 1); }
      assert r[i] == if i < k then items[i] else if i == k then item else items[i - 1];
      assert i + 1 < |r| ==> r[i + 1] == if i + 1 < k then items[i + 1] else if i + 1 == k then item else items[i];
      assert i > 0 ==> r[i - 1] == if i - 1 < k then items[i - 1] else if i - 1 == k then item else items[i - 2];
    }
  }

  lemma InsertedDistinct(items: seq<Item>, k: nat, item: Item)
    requires k <= |items| && Distinct(items) && item !in items
    ensures Distinct(items[..k] + [item] + items[k..])
  {
    var r := items[..k] + [item] + items[k..];
    forall i | 0 <= i < |r| ensures r[i] == if i < k then items[i] else if i == k then item else items[i - 1] {}
  }

  lemma ErasedDistinct(items: seq<Item>, k: nat)
    requires k < |items| && Distinct(items)
    ensures Distinct(items[..k] + items[k + 1..])
  {
    var r := items[..k] + items[k + 1..];
    forall i | 0 <= i < |r| ensures r[i] == if i < k then items[i] else items[i + 1] {}
  }

  /** The links after the item at place k has been taken out. */
  ghost predicate Unhooked(items: seq<Item>, k: nat)
    reads items
  {
    (&& (forall i :: 0 <= i < |items| && !(k - 1 <= i <= k + 1) ==> Linked(items, i))
     && (0 < k <= |items| ==> Links(items[k - 1], At(items, k - 2), At(items, k + 1)))
     && (k + 1 < |items| ==> Links(items[k + 1], At(items, k - 1), At(items, k + 2)))) == true
  }

  lemma ErasedChain(items: seq<Item>, k: nat, first: Item?, last: Item?)
    requires k < |items| && Unhooked(items, k)
    requires first == (if k == 0 then At(items, 1) else At(items, 0))
    requires last == if k == |items| - 1 then At(items, k - 1) else At(items, |items| - 1)
    ensures Chain(items[..k] + items[k + 1..], first, last)
  {
    var r := items[..k] + items[k + 1..];
    forall i | 0 <= i < |r| ensures Linked(r, i) {
      if i < k - 1 { assert Linked(items, i); }
      if i > k { assert Linked(items, i + 1); }
      assert r[i] == if i < k then items[i] else items[i + 1];
      assert i + 1 < |r| ==> r[i + 1] == if i + 1 < k then items[i + 1] else items[i + 2];
      assert i > 0 ==> r[i - 1] == if i - 1 < k then items[i - 1] else items[i];
    }
  }

  lemma Inserted(items: seq<Item>, item: Item, it: Item?, first: Item?, last: Item?)
    requires Distinct(items) && item !in items && (it != null ==> it in items)
    requires var k := Index(items, it);
             && Hooked(items, k, item)
             && item.inlist && item.prev == At(items, k - 1) && item.next == At(items, k)
             && first == (if k == 0 then item else At(items, 0))
             && last == if k == |items| then item else At(items, |items| - 1)
    ensures Good(With(items, item, it), first, last)
  {
    var k := Index(items, it);
    InsertedDistinct(items, k, item);
    InsertedChain(items, k, item, first, last);
  }

  lemma Erased(items: seq<Item>, item: Item, first: Item?, last: Item?)
    requires item in items && Distinct(items)
    requires var k := Index(items, item);
             && Unhooked(items, k)
             && first == (if k == 0 then At(items, 1) else At(items, 0))
             && last == if k == |items| - 1 then At(items, k - 1) else At(items, |items| - 1)
    ensures Good(Without(items, item), first, last)
  {
    var k := Index(items, item);
    ErasedDistinct(items, k);
    ErasedChain(items, k, first, last);
  }

  class List {
    var first: Item?
    var last: Item?
    ghost var items: seq<Item>

    ghost predicate Valid()
      reads this, items
    {
      Good(items, first, last)
    }

    /** nn_list_init. */
    constructor ()
      ensures Valid() && items == []
    {
      first, last, items := null, null, [];
    }

    /** nn_list_empty. */
    method Empty() returns (r: bool)
      requires Valid()
      ensures r == (items == [])
    {
      r := first == null;
    }

    /** nn_list_begin; nn_list_end is NULL. */
    method Begin() returns (it: Item?)
      requires Valid()
      ensures it == At(items, 0)
    {
      it := first;
    }

    /** nn_list_next. */
    method Next(it: Item) returns (r: Item?)
      requires Valid() && it in items
      ensures r == Behind(items, it)
    {
      assert Linked(items, Index(items, it));
      r := it.next;
    }

    ghost method Note(r: seq<Item>)
      requires Good(r, first, last)
      modifies `items
      ensures Valid() && items == r
    {
      items := r;
      assert Good(r, first, last);
    }

    /** nn_list_insert. */
    method Insert(item: Item, it: Item?)
      requires Valid() && !item.inlist && (it != null ==> it in items)
      modifies this, item, items
      ensures Valid() && items == With(old(items), item, it)
    {
      InList(items, item, first, last);
      Hook(item, it, Index(items, it));
      ghost var r := With(items, item, it);
      Inserted(items, item, it, first, last);
      Note(r);
    }

    lemma InList(items: seq<Item>, item: Item, first: Item?, last: Item?)
      requires Good(items, first, last)
      ensures item in items ==> item.inlist
    {
      if item in items { assert Linked(items, Index(items, item)); }
    }

    /** Lines 77-86. */
    method Hook(item: Item, it: Item?, ghost k: nat)
      requires Valid() && item !in items && k <= |items| && it == At(items, k)
      modifies `first, `last, item, items
      ensures items == old(items) && Hooked(items, k, item)
      ensures item.inlist && item.prev == At(items, k - 1) && item.next == At(items, k)
      ensures first == if k == 0 then item else At(items, 0)
      ensures last == if k == |items| then item else At(items, |items| - 1)
    {
      EndsAt(items, k, first, last);
      SetItem(item, it, k);
      PointTo(item, k);
      Enclose(item, it, k);
    }

    /** Lines 77-78. */
    method SetItem(item: Item, it: Item?, ghost k: nat)
      requires Valid() && item !in items && k <= |items| && it == At(items, k)
      modifies item
      ensures item.inlist && item.prev == At(items, k - 1) && item.next == At(items, k) && Valid()
    {
      assert k < |items| ==> Linked(items, k);
      item.prev := if it != null then it.prev else last;
      item.next := it;
      item.inlist := true;
    }

    lemma EndsAt(items: seq<Item>, k: nat, first: Item?, last: Item?)
      requires Good(items, first, last) && k <= |items|
      ensures first == At(items, 0) && last == At(items, |items| - 1)
      ensures (first == null || first == At(items, k)) <==> k == 0
      ensures At(items, k) == null <==> k == |items|
    {
    }

    /** Lines 79-82. */
    method PointTo(item: Item, ghost k: nat)
      requires Good(items, first, last) && item !in items && k <= |items|
      requires item.next == At(items, k) && item.prev == At(items, k - 1)
      modifies items
      ensures Hooked(items, k, item)
    {
      assert k < |items| ==> Linked(items, k);
      assert k > 0 ==> Linked(items, k - 1);
      if item.prev != null {
        item.prev.next := item;
      }
      if item.next != null {
        item.next.prev := item;
      }
      forall i | 0 <= i < |items| && i != k - 1 && i != k ensures Linked(items, i) {
        assert old(Linked(items, i));
      }
    }

    /** Lines 83-86. */
    method Enclose(item: Item, it: Item?, ghost k: nat)
      requires k <= |items| && it == At(items, k)
      requires first == At(items, 0) && last == At(items, |items| - 1)
      requires (first == null || first == it) <==> k == 0
      requires it == null <==> k == |items|
      modifies `first, `last
      ensures first == if k == 0 then item else At(items, 0)
      ensures last == if k == |items| then item else At(items, |items| - 1)
    {
      if first == null || first == it {
        first := item;
      }
      if it == null {
        last := item;
      }
    }

    /** nn_list_erase: returns the item behind. */
    method Erase(item: Item) returns (next: Item?)
      requires Valid() && item in items
      modifies this, items
      ensures Valid() && !item.inlist
      ensures items == Without(old(items), item) && next == Behind(old(items), item)
    {
      next := Unhook(item, Index(items, item));
      ghost var r := Without(items, item);
      Erased(items, item, first, last);
      Note(r);
    }

    /** Lines 96-108. */
    method Unhook(item: Item, ghost k: nat) returns (next: Item?)
      requires k < |items| && item == items[k] && Valid()
      modifies `first, `last, items
      ensures items == old(items) && Unhooked(items, k) && !item.inlist && next == At(items, k + 1)
      ensures first == if k == 0 then At(items, 1) else At(items, 0)
      ensures last == if k == |items| - 1 then At(items, k - 1) else At(items, |items| - 1)
    {
      assert Linked(items, k);
      next := item.next;
      Bridge(item.prev, next, k);
      Detach(item, k);
    }

    /** Lines 96-103: the neighbours are linked to each other. */
    method Bridge(prev: Item?, next: Item?, ghost k: nat)
      requires k < |items| && Valid() && prev == At(items, k - 1) && next == At(items, k + 1)
      modifies `first, `last, items
      ensures items == old(items) && Unhooked(items, k)
      ensures first == if k == 0 then At(items, 1) else At(items, 0)
      ensures last == if k == |items| - 1 then At(items, k - 1) else At(items, |items| - 1)
    {
      assert k > 0 ==> Linked(items, k - 1);
      assert k + 1 < |items| ==> Linked(items, k + 1);
      if prev != null {
        prev.next := next;
      } else {
        first := next;
      }
      if next != null {
        next.prev := prev;
      } else {
        last := prev;
      }
      forall i | 0 <= i < |items| && !(k - 1 <= i <= k + 1) ensures Linked(items, i) {
        assert old(Linked(items, i));
      }
    }

    /** Lines 107-108. */
    method Detach(item: Item, ghost k: nat)
      requires k < |items| && item == items[k] && Distinct(items) && Unhooked(items, k)
      modifies item
      ensures !item.inlist && Unhooked(items, k)
    {
      item.prev, item.next, item.inlist := null, null, false;
      forall i | 0 <= i < |items| && !(k - 1 <= i <= k + 1) ensures Linked(items, i) {
        assert old(Linked(items, i));
      }
    }
  }
}
