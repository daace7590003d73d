/** Lemmas about child arrays.  Each change of a child array is described by what it does to the
    function "character to child" (`Child`), whatever the representation. */
module TrieKids {
  import opened Wire
  import opened TrieModel

  // ---------------------------------------------------------------- counting occupied slots

  lemma {:induction false} NonNullAppend(a: seq<Tree>, b: seq<Tree>)
    ensures NonNull(a + b) == NonNull(a) + NonNull(b)
  {
    if a == [] {
      assert a + b == b;
    } else {
      assert (a + b)[1..] == a[1..] + b;
      NonNullAppend(a[1..], b);
    }
  }

  lemma {:induction false} NonNullNulls(a: seq<Tree>)
    requires forall i :: 0 <= i < |a| ==> a[i].Null?
    ensures NonNull(a) == 0
  {
    if a != [] { NonNullNulls(a[1..]); }
  }

  function One(t: Tree): nat { if t.Null? then 0 else 1 }

  lemma {:induction false} NonNullUpdate(a: seq<Tree>, i: nat, t: Tree)
    requires i < |a|
    ensures NonNull(a[i := t]) == NonNull(a) - One(a[i]) + One(t)
  {
    assert a == a[..i] + [a[i]] + a[i + 1..];
    assert a[i := t] == a[..i] + [t] + a[i + 1..];
    forall x ensures NonNull(a[..i] + [x] + a[i + 1..]) == NonNull(a[..i]) + One(x) + NonNull(a[i + 1..]) {
      NonNullAppend(a[..i] + [x], a[i + 1..]);
      NonNullAppend(a[..i], [x]);
      assert [x][1..] == [];
    }
  }

  // ---------------------------------------------------------------- replacing a child

  lemma FindIs(s: Bytes, i: nat)
    requires i < |s| && Distinct(s)
    ensures Find(s, s[i]) == i
  {
  }

  lemma FindFirst(s: Bytes, c: Byte, i: nat)
    requires i <= |s| && (i < |s| ==> s[i] == c) && forall j :: 0 <= j < i ==> s[j] != c
    ensures Find(s, c) == i
  {
  }

  lemma FindAppend(s: Bytes, e: Byte, c: Byte)
    ensures Find(s + [e], c) == if Find(s, c) < |s| then Find(s, c) else if c == e then |s| else |s| + 1
  {
    var i := if Find(s, c) < |s| then Find(s, c) else if c == e then |s| else |s| + 1;
    assert forall j :: 0 <= j < |s| ==> (s + [e])[j] == s[j];
    FindFirst(s + [e], c, i);
  }

  predicate Reaches(k: Kids, c: Byte) {
    HasSlot(k, c) && 0 <= Slot(k, c) < |k.subs|
  }

  lemma ChildSetSub(k: Kids, c: Byte, t: Tree, x: Byte)
    requires Reaches(k, c)
    ensures Child(SetSub(k, Slot(k, c), t), x) == if x == c then t else Child(k, x)
  {
  }

  lemma WFReaches(k: Kids, c: Byte)
    requires WFKids(k) && HasSlot(k, c)
    ensures Reaches(k, c) && Child(k, c) == k.subs[Slot(k, c)]
  {
  }

  lemma WFSetSub(k: Kids, c: Byte, t: Tree)
    requires WFKids(k) && !Child(k, c).Null? && !t.Null?
    ensures WFKids(SetSub(k, Slot(k, c), t))
  {
    if k.Dense? { NonNullUpdate(k.subs, Slot(k, c), t); }
  }

  // ---------------------------------------------------------------- opening a slot (step 3)

  lemma {:induction false} ScatterAt(chars: Bytes, subs: seq<Tree>, lo: Byte, size: nat, n: nat, x: Byte)
    requires n <= |chars| == |subs| && Distinct(chars) && lo <= x < lo + size
    requires forall i :: 0 <= i < |chars| ==> lo <= chars[i] < lo + size
    ensures Scatter(chars, subs, lo, size, n)[x - lo]
         == if Find(chars, x) < n then subs[Find(chars, x)] else Null
  {
    if n > 0 {
      ScatterAt(chars, subs, lo, size, n - 1, x);
      FindIs(chars, n - 1);
    }
  }

  lemma {:induction false} ScatterNonNull(chars: Bytes, subs: seq<Tree>, lo: Byte, size: nat, n: nat)
    requires n <= |chars| == |subs| && Distinct(chars)
    requires forall i :: 0 <= i < |chars| ==> lo <= chars[i] < lo + size && !subs[i].Null?
    ensures NonNull(Scatter(chars, subs, lo, size, n)) == n
  {
    if n == 0 {
      NonNullNulls(Nulls(size));
    } else {
      ScatterNonNull(chars, subs, lo, size, n - 1);
      ScatterAt(chars, subs, lo, size, n - 1, chars[n - 1]);
      FindIs(chars, n - 1);
      NonNullUpdate(Scatter(chars, subs, lo, size, n - 1), chars[n - 1] - lo, subs[n - 1]);
    }
  }

  /** Attained extremes: MinOf and MaxOf are one of the given characters. */
  lemma {:induction false} ExtremesAttained(s: Bytes, c: Byte)
    ensures MinOf(s, c) == c || MinOf(s, c) in s
    ensures MaxOf(s, c) == c || MaxOf(s, c) in s
  {
    if s != [] { ExtremesAttained(s[..|s| - 1], c); }
  }

  /** What step 3 promises: a slot for c that holds NULL, no other character affected, and a
      well-formed child array again as soon as the slot is filled. */
  lemma OpenSlotSpec(t: Tree, c: Byte, v: Tree)
    requires !v.Null? && t.Node? && WFKids(t.kids) && Child(t.kids, c) == Null
    ensures var k := OpenSlot(t, c).kids; Reaches(k, c) && forall x :: Child(k, x) == Child(t.kids, x)
    ensures var k := OpenSlot(t, c).kids; WFKids(SetSub(k, Slot(k, c), v))
  {
    match t.kids
    case Sparse(chars, subs) =>
      if |chars| < SPARSE_MAX { OpenSparse(t, c, v); } else { OpenFull(t, c, v); }
    case Dense(_, _, _, _) =>
      OpenDense(t, c, v);
  }

  lemma OpenSparse(t: Tree, c: Byte, v: Tree)
    requires !v.Null? && t.Node? && WFKids(t.kids) && Child(t.kids, c) == Null
    requires t.kids.Sparse? && |t.kids.chars| < SPARSE_MAX
    ensures var k := OpenSlot(t, c).kids; Reaches(k, c) && forall x :: Child(k, x) == Child(t.kids, x)
    ensures var k := OpenSlot(t, c).kids; WFKids(SetSub(k, Slot(k, c), v))
  {
    var chars := t.kids.chars;
    var k := OpenSlot(t, c).kids;
    FindAppend(chars, c, c);
    forall x ensures Child(k, x) == Child(t.kids, x) {
      FindAppend(chars, c, x);
    }
  }

  lemma ToDenseSpec(k: Kids, c: Byte)
    requires WFKids(k) && k.Sparse? && Child(k, c) == Null
    ensures var d := ToDense(k, c);
            && d.min <= c <= d.max && |d.subs| == d.max - d.min + 1
            && d.nbr == NonNull(d.subs) + 1 == |k.chars| + 1
            && (forall x :: Child(d, x) == Child(k, x))
            && (c == d.min || !d.subs[0].Null?)
            && (c == d.max || !d.subs[|d.subs| - 1].Null?)
  {
    var d := ToDense(k, c);
    forall x: Byte ensures Child(d, x) == Child(k, x) { ToDenseAt(k, c, x); }
    ScatterNonNull(k.chars, k.subs, d.min, d.max - d.min + 1, |k.chars|);
    ToDenseEnds(k, c);
  }

  lemma ToDenseEnds(k: Kids, c: Byte)
    requires WFKids(k) && k.Sparse? && Child(k, c) == Null
    ensures var d := ToDense(k, c);
            (c == d.min || !d.subs[0].Null?) && (c == d.max || !d.subs[|d.subs| - 1].Null?)
  {
    var d := ToDense(k, c);
    ExtremesAttained(k.chars, c);
    if d.min != c { ChildOf(k, d.min); ToDenseAt(k, c, d.min); }
    if d.max != c { ChildOf(k, d.max); ToDenseAt(k, c, d.max); }
  }

  lemma ToDenseAt(k: Kids, c: Byte, x: Byte)
    requires WFKids(k) && k.Sparse? && Child(k, c) == Null
    ensures Child(ToDense(k, c), x) == Child(k, x)
  {
    var Sparse(chars, subs) := k;
    var d := ToDense(k, c);
    if d.min <= x <= d.max {
      ScatterAt(chars, subs, d.min, d.max - d.min + 1, |chars|, x);
    } else {
      FindFirst(chars, x, |chars|);
    }
  }

  lemma ChildOf(k: Kids, x: Byte)
    requires WFKids(k) && k.Sparse? && x in k.chars
    ensures !Child(k, x).Null?
  {
    var i :| 0 <= i < |k.chars| && k.chars[i] == x;
    FindIs(k.chars, i);
  }

  lemma OpenFull(t: Tree, c: Byte, v: Tree)
    requires !v.Null? && t.Node? && WFKids(t.kids) && Child(t.kids, c) == Null
    requires t.kids.Sparse? && |t.kids.chars| == SPARSE_MAX
    ensures var k := OpenSlot(t, c).kids; Reaches(k, c) && forall x :: Child(k, x) == Child(t.kids, x)
    ensures var k := OpenSlot(t, c).kids; WFKids(SetSub(k, Slot(k, c), v))
  {
    var Sparse(chars, subs) := t.kids;
    var lo, hi := MinOf(chars, c), MaxOf(chars, c);
    var k := OpenSlot(t, c).kids;
    ToDenseSpec(t.kids, c);
    NonNullUpdate(k.subs, c - lo, v);
  }

  /** A dense node that is widened to cover c: the same children, and as many. */
  lemma WidenKeeps(k: Kids, c: Byte)
    requires k.Dense? && WFKids(k)
    ensures var w := Widen(k, c);
            && w.Dense? && w.nbr == k.nbr && w.min <= c <= w.max && |w.subs| == w.max - w.min + 1
            && NonNull(w.subs) == NonNull(k.subs)
            && forall x :: Child(w, x) == Child(k, x)
  {
    if c < k.min {
      NonNullNulls(Nulls(k.min - c));
      NonNullAppend(Nulls(k.min - c), k.subs);
    } else if k.max < c {
      NonNullNulls(Nulls(c - k.max));
      NonNullAppend(k.subs, Nulls(c - k.max));
    }
  }

  /** Both ends of the widened array hold a node, or are the slot for c. */
  lemma WidenEnds(k: Kids, c: Byte)
    requires k.Dense? && WFKids(k)
    ensures var w := Widen(k, c);
            && |w.subs| == w.max - w.min + 1 && w.min <= c <= w.max
            && (c != w.min ==> !w.subs[0].Null?) && (c != w.max ==> !w.subs[|w.subs| - 1].Null?)
  {
  }

  lemma OpenDense(t: Tree, c: Byte, v: Tree)
    requires !v.Null? && t.Node? && WFKids(t.kids) && Child(t.kids, c) == Null && t.kids.Dense?
    ensures var k := OpenSlot(t, c).kids; Reaches(k, c) && forall x :: Child(k, x) == Child(t.kids, x)
    ensures var k := OpenSlot(t, c).kids; WFKids(SetSub(k, Slot(k, c), v))
  {
    WidenKeeps(t.kids, c);
    WidenEnds(t.kids, c);
    var w := Widen(t.kids, c);
    assert Child(w, c) == Null;
    NonNullUpdate(w.subs, c - w.min, v);
  }

  // ---------------------------------------------------------------- packing a dense array

  lemma {:induction false} PackLength(min: nat, subs: seq<Tree>)
    requires min + |subs| <= 256
    ensures |PackChars(min, subs)| == |PackSubs(subs)| == NonNull(subs)
    ensures forall i :: 0 <= i < |PackSubs(subs)| ==> !PackSubs(subs)[i].Null?
    ensures forall i :: 0 <= i < |PackChars(min, subs)| ==> min <= PackChars(min, subs)[i] < min + |subs|
    ensures Distinct(PackChars(min, subs))
  {
    if subs != [] {
      var n := |subs| - 1;
      PackLength(min, subs[..n]);
      assert subs == subs[..n] + [subs[n]];
      NonNullAppend(subs[..n], [subs[n]]);
      assert [subs[n]][1..] == [];
    }
  }

  /** What a sparse node with these characters and children has for x. */
  function At(chars: Bytes, subs: seq<Tree>, x: Byte): Tree {
    var i := Find(chars, x);
    if i < |subs| then subs[i] else Null
  }

  lemma AtAppend(chars: Bytes, subs: seq<Tree>, c: Byte, t: Tree, x: Byte)
    requires |chars| == |subs| && c !in chars
    ensures At(chars + [c], subs + [t], x) == if x == c then t else At(chars, subs, x)
  {
    FindAppend(chars, c, x);
  }

  lemma PackSnoc(min: nat, subs: seq<Tree>, t: Tree)
    requires min + |subs| + 1 <= 256
    ensures PackChars(min, subs + [t]) ==
            if t.Null? then PackChars(min, subs) else PackChars(min, subs) + [min + |subs|]
    ensures PackSubs(subs + [t]) == if t.Null? then PackSubs(subs) else PackSubs(subs) + [t]
  {
    assert (subs + [t])[..|subs|] == subs;
  }

  lemma PackAtSnoc(min: nat, subs: seq<Tree>, t: Tree, x: Byte)
    requires min + |subs| + 1 <= 256
    requires At(PackChars(min, subs), PackSubs(subs), x) == if min <= x < min + |subs| then subs[x - min] else Null
    ensures At(PackChars(min, subs + [t]), PackSubs(subs + [t]), x) ==
            if min <= x < min + |subs| then subs[x - min] else if x == min + |subs| then t else Null
  {
    PackSnoc(min, subs, t);
    PackLength(min, subs);
    if !t.Null? {
      AtAppend(PackChars(min, subs), PackSubs(subs), min + |subs|, t, x);
    }
  }

  lemma {:induction false} PackAt(min: nat, subs: seq<Tree>, x: Byte)
    requires min + |subs| <= 256
    ensures At(PackChars(min, subs), PackSubs(subs), x) == if min <= x < min + |subs| then subs[x - min] else Null
  {
    if subs != [] {
      var n := |subs| - 1;
      PackAt(min, subs[..n], x);
      PackAtSnoc(min, subs[..n], subs[n], x);
      assert subs[..n] + [subs[n]] == subs;
    }
  }

  // ---------------------------------------------------------------- pruning a child

  lemma RemoveAtChild(chars: Bytes, subs: seq<Tree>, c: Byte, x: Byte)
    requires |chars| == |subs| && Distinct(chars) && Find(chars, c) < |chars|
    ensures var i := Find(chars, c);
            Child(Sparse(RemoveAt(chars, i), RemoveAt(subs, i)), x)
            == if x == c then Null else Child(Sparse(chars, subs), x)
  {
    var i := Find(chars, c);
    FindRemoved(chars, i, x);
    RemoveAtIndex(chars, i);
    RemoveAtIndex(subs, i);
  }

  lemma FindRemoved(chars: Bytes, i: nat, x: Byte)
    requires Distinct(chars) && i < |chars|
    ensures var j := Find(chars, x);
            && (j < |chars| ==> chars[j] == x)
            && (x == chars[i] ==> j == i)
            && Find(RemoveAt(chars, i), x) == if j == |chars| || x == chars[i] then |chars| - 1
                                              else if j < i then j else j - 1
  {
    FindIs(chars, i);
    var j := Find(chars, x);
    if j == |chars| || x == chars[i] {
      FindGone(chars, i, x);
    } else {
      FindKept(chars, i, j, x);
    }
  }

  lemma FindGone(chars: Bytes, i: nat, x: Byte)
    requires i < |chars| && forall j :: 0 <= j < |chars| && j != i ==> chars[j] != x
    ensures Find(RemoveAt(chars, i), x) == |chars| - 1
  {
    RemoveAtIndex(chars, i);
    FindFirst(RemoveAt(chars, i), x, |chars| - 1);
  }

  lemma FindKept(chars: Bytes, i: nat, j: nat, x: Byte)
    requires i < |chars| && j < |chars| && j != i && chars[j] == x && forall k :: 0 <= k < j ==> chars[k] != x
    ensures Find(RemoveAt(chars, i), x) == if j < i then j else j - 1
  {
    RemoveAtIndex(chars, i);
    FindFirst(RemoveAt(chars, i), x, if j < i then j else j - 1);
  }

  lemma RemoveAtIndex<T>(s: seq<T>, i: nat)
    requires i < |s|
    ensures |RemoveAt(s, i)| == |s| - 1
    ensures forall j :: 0 <= j < |s| - 1 ==> RemoveAt(s, i)[j] == s[if j < i then j else j + 1]
  {
  }

  /** What pruning promises before compaction: the same children except that c has none, and a
      well-formed array. */
  predicate Pruned(k: Kids, k': Kids, c: Byte) {
    WFKids(k') && forall x :: Child(k', x) == if x == c then Null else Child(k, x)
  }

  lemma PruneDense(t: Tree, c: Byte)
    requires t.Node? && |t.prefix| <= PREFIX_MAX && WFKids(t.kids) && !Child(t.kids, c).Null?
    requires t.kids.Dense?
    ensures Prune(t, c).Node? && Pruned(t.kids, Prune(t, c).kids, c)
    ensures Prune(t, c).prefix == t.prefix
    ensures Prune(t, c).refcount == if t.kids.nbr > SPARSE_MAX + 1 then t.refcount else 0
    ensures Prune(t, c).kids.Sparse? ==> |Prune(t, c).kids.chars| == SPARSE_MAX
  {
    var Dense(min, max, nbr, subs) := t.kids;
    var cut := subs[c - min := Null];
    NonNullUpdate(subs, c - min, Null);
    if nbr > SPARSE_MAX + 1 {
      TrimKeeps(t.kids, c, cut);
    } else {
      PackLength(min, cut);
      forall x ensures Child(Prune(t, c).kids, x) == if x == c then Null else Child(t.kids, x) {
        PackAt(min, cut, x);
      }
    }
  }

  /** Trimming cuts a NULLs off on the left and leaves this part. */
  predicate TrimmedTo(k: Kids, c: Byte, a: nat, part: seq<Tree>)
    requires k.Dense? && k.nbr > 0 && k.min <= c <= k.max && |k.subs| == k.max - k.min + 1
    requires part != [] && a + |part| <= |k.subs|
  {
    Trim(k, c) == Dense(k.min + a, k.min + a + |part| - 1, k.nbr - 1, part)
  }

  lemma TrimFirst(k: Kids, c: Byte, cut: seq<Tree>)
    requires k.Dense? && k.nbr > 0 && c == k.min <= k.max && |k.subs| == k.max - k.min + 1
    requires cut == k.subs[c - k.min := Null] && FirstNode(cut) < |cut|
    ensures TrimmedTo(k, c, FirstNode(cut), cut[FirstNode(cut)..])
  {
  }

  lemma TrimLast(k: Kids, c: Byte, cut: seq<Tree>)
    requires k.Dense? && k.nbr > 0 && k.min < c == k.max && |k.subs| == k.max - k.min + 1
    requires cut == k.subs[c - k.min := Null] && LastNode(cut) < |cut|
    ensures TrimmedTo(k, c, 0, cut[..LastNode(cut) + 1])
  {
  }

  lemma TrimMiddle(k: Kids, c: Byte, cut: seq<Tree>)
    requires k.Dense? && k.nbr > 0 && k.min < c < k.max && |k.subs| == k.max - k.min + 1
    requires cut == k.subs[c - k.min := Null]
    ensures TrimmedTo(k, c, 0, cut)
  {
  }

  lemma TrimKeeps(k: Kids, c: Byte, cut: seq<Tree>)
    requires WFKids(k) && k.Dense? && !Child(k, c).Null? && k.nbr > SPARSE_MAX + 1
    requires cut == k.subs[c - k.min := Null] && NonNull(cut) == k.nbr - 1
    ensures Trim(k, c).Dense? && Pruned(k, Trim(k, c), c)
  {
    assert c != k.min ==> cut[0] == k.subs[0];
    assert c != k.max ==> cut[|cut| - 1] == k.subs[|k.subs| - 1];
    var a, part := TrimPart(k, c, cut);
    TrimTo(k, c, cut, part, a);
  }

  lemma TrimPart(k: Kids, c: Byte, cut: seq<Tree>) returns (a: nat, part: seq<Tree>)
    requires k.Dense? && k.nbr > SPARSE_MAX + 1 && k.min <= c <= k.max && |k.subs| == k.max - k.min + 1
    requires cut == k.subs[c - k.min := Null] && NonNull(cut) == k.nbr - 1
    requires c != k.min ==> !cut[0].Null?
    requires c != k.max ==> !cut[|cut| - 1].Null?
    ensures Within(cut, part, a) && NonNull(part) == k.nbr - 1 && TrimmedTo(k, c, a, part)
  {
    if c == k.min {
      TrimLeft(cut);
      a := FirstNode(cut);
      part := cut[a..];
      CutWithin(cut, a, |cut|);
      assert cut[a..|cut|] == part;
      TrimFirst(k, c, cut);
    } else if c == k.max {
      TrimRight(cut);
      a, part := 0, cut[..LastNode(cut) + 1];
      CutWithin(cut, 0, |part|);
      assert cut[0..|part|] == part;
      TrimLast(k, c, cut);
    } else {
      a, part := 0, cut;
      TrimMiddle(k, c, cut);
    }
  }

  lemma CutWithin(cut: seq<Tree>, a: nat, b: nat)
    requires a < b <= |cut| && !cut[a].Null? && !cut[b - 1].Null?
    requires forall i :: 0 <= i < a || b <= i < |cut| ==> cut[i].Null?
    ensures Within(cut, cut[a..b], a)
  {
  }

  /** part is what remains of cut once NULLs at its ends are dropped; a of them on the left. */
  predicate Within(cut: seq<Tree>, part: seq<Tree>, a: nat) {
    && a + |part| <= |cut|
    && part != [] && !part[0].Null? && !part[|part| - 1].Null?
    && forall i :: 0 <= i < |cut| ==> cut[i] == if a <= i < a + |part| then part[i - a] else Null
  }

  lemma TrimTo(k: Kids, c: Byte, cut: seq<Tree>, part: seq<Tree>, a: nat)
    requires WFKids(k) && k.Dense? && !Child(k, c).Null? && k.nbr > SPARSE_MAX + 1
    requires cut == k.subs[c - k.min := Null] && Within(cut, part, a) && NonNull(part) == k.nbr - 1
    ensures Pruned(k, Dense(k.min + a, k.min + a + |part| - 1, k.nbr - 1, part), c)
  {
    forall x: Byte {
      TrimAt(k, c, cut, part, a, k.nbr - 1, x);
    }
  }

  lemma TrimAt(k: Kids, c: Byte, cut: seq<Tree>, part: seq<Tree>, a: nat, n: nat, x: Byte)
    requires k.Dense? && |k.subs| == k.max - k.min + 1 && k.min <= c <= k.max
    requires cut == k.subs[c - k.min := Null] && Within(cut, part, a)
    ensures Child(Dense(k.min + a, k.min + a + |part| - 1, n, part), x)
         == if x == c then Null else Child(k, x)
  {
    if k.min <= x <= k.max { assert cut[x - k.min] == if x == c then Null else Child(k, x); }
  }

  lemma TrimLeft(s: seq<Tree>)
    requires NonNull(s) > 0
    ensures FirstNode(s) < |s| && NonNull(s[FirstNode(s)..]) == NonNull(s)
  {
    var i := FirstNode(s);
    NonNullNulls(s[..i]);
    NonNullAppend(s[..i], s[i..]);
    assert s == s[..i] + s[i..];
  }

  lemma TrimRight(s: seq<Tree>)
    requires NonNull(s) > 0
    ensures LastNode(s) < |s| && !s[LastNode(s)].Null? && NonNull(s[..LastNode(s) + 1]) == NonNull(s)
  {
    var i := LastNode(s);
    NonNullNulls(s[i + 1..]);
    NonNullAppend(s[..i + 1], s[i + 1..]);
    assert s == s[..i + 1] + s[i + 1..];
    if s[i].Null? { NonNullNulls(s); assert false; }
  }
}
