/** The subscription trie of protocols/pubsub/trie.c as a value, with one function per operation of
    the source.  Pointers become sub-values here; TrieHeap.dfy has the in-place code. */
module TrieModel {

  import opened Wire

  const PREFIX_MAX := 10
  const SPARSE_MAX := 8
  const REFCOUNT_MAX := 0xFFFF_FFFF

  /** A node pointer: NULL or a node together with everything below it. */
  datatype Tree =
    | Null
    | Node(refcount: nat, prefix: Bytes, kids: Kids)

  /** The child array of a node.  `Sparse` is a node whose type field is |chars| (0..8), `Dense` one
      whose type field is NN_TRIE_DENSE_TYPE. */
  datatype Kids =
    | Sparse(chars: Bytes, subs: seq<Tree>)
    | Dense(min: Byte, max: Byte, nbr: nat, subs: seq<Tree>)

  const NO_KIDS := Sparse([], [])

  // ---------------------------------------------------------------- lookups

  /** Length of the longest common prefix (nn_node_check_prefix). */
  function Common(p: Bytes, d: Bytes): (n: nat)
    ensures n <= |p| && n <= |d| && p[..n] == d[..n]
    ensures n < |p| && n < |d| ==> p[n] != d[n]
    ensures n == |p| <==> p <= d
  {
    if p == [] || d == [] || p[0] != d[0] then 0
    else
      var n := 1 + Common(p[1..], d[1..]);
      assert p[..n] == [p[0]] + p[1..][..n - 1];
      assert d[..n] == [d[0]] + d[1..][..n - 1];
      assert n == |p| <==> p <= d by {
        if n == |p| {
          assert p == p[..n] == d[..n];
        }
        if p <= d {
          assert p[1..] <= d[1..];
        }
      }
      n
  }

  /** Index of the first occurrence of c, or |s|. */
  function Find(s: Bytes, c: Byte): (i: nat)
    ensures i <= |s| && (i < |s| ==> s[i] == c)
    ensures forall j :: 0 <= j < i ==> s[j] != c
  {
    if s == [] || s[0] == c then 0 else 1 + Find(s[1..], c)
  }

  /** Does nn_node_next return a non-NULL slot pointer for c?  (The slot itself may hold NULL.) */
  predicate HasSlot(k: Kids, c: Byte) {
    match k
    case Sparse(chars, _) => Find(chars, c) < |chars|
    case Dense(min, max, _, _) => min <= c <= max
  }

  function Slot(k: Kids, c: Byte): int {
    match k
    case Sparse(chars, _) => Find(chars, c)
    case Dense(min, _, _, _) => c - min
  }

  /** The child reached over character c, NULL when there is none. */
  function Child(k: Kids, c: Byte): Tree {
    if HasSlot(k, c) && Slot(k, c) < |k.subs| then k.subs[Slot(k, c)] else Null
  }

  function SetSub(k: Kids, i: nat, t: Tree): Kids
    requires i < |k.subs|
  {
    k.(subs := k.subs[i := t])
  }

  // ---------------------------------------------------------------- well-formed tries

  predicate Distinct(s: Bytes) {
    forall i, j :: 0 <= i < j < |s| ==> s[i] != s[j]
  }

  function NonNull(subs: seq<Tree>): nat {
    if subs == [] then 0 else (if subs[0].Null? then 0 else 1) + NonNull(subs[1..])
  }

  predicate WFKids(k: Kids) {
    match k
    case Sparse(chars, subs) =>
      && |chars| == |subs| <= SPARSE_MAX
      && Distinct(chars)
      && (forall i :: 0 <= i < |subs| ==> !subs[i].Null?)
    case Dense(min, max, nbr, subs) =>
      && min <= max
      && |subs| == max - min + 1
      && nbr == NonNull(subs)
      && nbr > SPARSE_MAX
      && !subs[0].Null?
      && !subs[|subs| - 1].Null?
  }

  /** The structure invariant, including: no node without a subscription is a leaf. */
  predicate WF(t: Tree) {
    match t
    case Null => true
    case Node(rc, p, k) =>
      && rc <= REFCOUNT_MAX && |p| <= PREFIX_MAX
      && WFKids(k)
      && (rc == 0 ==> k != NO_KIDS)
      && (forall i :: 0 <= i < |k.subs| ==> WF(k.subs[i]))
  }

  /** How many times s is subscribed: the meaning of a trie. */
  function Count(t: Tree, s: Bytes): nat
    decreases |s|
  {
    match t
    case Null => 0
    case Node(rc, p, k) =>
      if !(p <= s) then 0
      else if |s| == |p| then rc
      else Count(Child(k, s[|p|]), s[|p| + 1..])
  }

  // ---------------------------------------------------------------- nn_node_compact

  function Compact(t: Tree): Tree {
    if t.Node? && t.refcount == 0 && t.kids.Sparse? && |t.kids.chars| == 1 == |t.kids.subs|
       && t.kids.subs[0].Node?
       && |t.prefix| + |t.kids.subs[0].prefix| + 1 <= PREFIX_MAX
    then
      var ch := t.kids.subs[0];
      Node(ch.refcount, t.prefix + [t.kids.chars[0]] + ch.prefix, ch.kids)
    else t
  }

  // ---------------------------------------------------------------- nn_trie_subscribe

  /** Step 4 and 5: the chain of new nodes that holds d. */
  function Chain(d: Bytes): Tree
    decreases |d|
  {
    if |d| <= PREFIX_MAX then Node(1, d, NO_KIDS)
    else Node(0, d[..PREFIX_MAX], Sparse([d[PREFIX_MAX]], [Chain(d[PREFIX_MAX + 1..])]))
  }

  function Nulls(n: nat): (s: seq<Tree>)
    ensures |s| == n && forall i :: 0 <= i < n ==> s[i] == Null
  {
    seq(n, _ => Null)
  }

  function Min(a: Byte, b: Byte): Byte { if a < b then a else b }
  function Max(a: Byte, b: Byte): Byte { if a > b then a else b }

  /** Step 3, dense node: widen min..max so that it covers c. */
  function Widen(k: Kids, c: Byte): Kids
    requires k.Dense?
  {
    var lo, hi := Min(k.min, c), Max(k.max, c);
    if lo != k.min then Dense(lo, hi, k.nbr, Nulls(k.min - lo) + k.subs)
    else if k.max < hi then Dense(lo, hi, k.nbr, k.subs + Nulls(hi - k.max))
    else k
  }

  function MinOf(s: Bytes, c: Byte): (m: Byte)
    ensures m <= c && forall i :: 0 <= i < |s| ==> m <= s[i]
  {
    if s == [] then c else Min(s[|s| - 1], MinOf(s[..|s| - 1], c))
  }

  function MaxOf(s: Bytes, c: Byte): (m: Byte)
    ensures m >= c && forall i :: 0 <= i < |s| ==> m >= s[i]
  {
    if s == [] then c else Max(s[|s| - 1], MaxOf(s[..|s| - 1], c))
  }

  /** Step 3, full sparse node: scatter the first n sparse children over a NULL-filled array. */
  function Scatter(chars: Bytes, subs: seq<Tree>, lo: Byte, size: nat, n: nat): (r: seq<Tree>)
    requires n <= |chars| == |subs|
    requires forall i :: 0 <= i < |chars| ==> lo <= chars[i] < lo + size
    ensures |r| == size
  {
    if n == 0 then Nulls(size)
    else Scatter(chars, subs, lo, size, n - 1)[chars[n - 1] - lo := subs[n - 1]]
  }

  function ToDense(k: Kids, c: Byte): Kids
    requires k.Sparse? && |k.chars| == |k.subs|
  {
    var lo, hi := MinOf(k.chars, c), MaxOf(k.chars, c);
    Dense(lo, hi, |k.chars| + 1, Scatter(k.chars, k.subs, lo, hi - lo + 1, |k.chars|))
  }

  /** Step 3 for a node that has no child for c: the node with an empty slot for c.  Converting a
      full sparse node starts a new node whose refcount is 0, as line 382 does. */
  function OpenSlot(t: Tree, c: Byte): Tree
    requires t.Node? && WFKids(t.kids) && Child(t.kids, c) == Null
  {
    match t.kids
    case Sparse(chars, subs) =>
      if |chars| < SPARSE_MAX
      then t.(kids := Sparse(chars + [c], subs + [Null]))
      else Node(0, t.prefix, ToDense(t.kids, c))
    case Dense(min, max, nbr, subs) =>
      t.(kids := Widen(t.kids, c).(nbr := nbr + 1))
  }

  /** `++refcount` in 32 bits (step 5). */
  function Bump(refcount: nat): nat { if refcount == REFCOUNT_MAX then 0 else refcount + 1 }

  /** Steps 3 to 5 on a node that has no child for the next character of d. */
  function Extend(t: Tree, d: Bytes): Tree
    requires t.Node? && WFKids(t.kids)
    requires d != [] ==> Child(t.kids, d[0]) == Null
  {
    if d == [] then t.(refcount := Bump(t.refcount))
    else
      var t' := OpenSlot(t, d[0]);
      var i := Slot(t'.kids, d[0]);
      if 0 <= i < |t'.kids.subs|
      then t'.(kids := SetSub(t'.kids, i, Chain(d[1..])))
      else t'
  }

  /** Step 2: split the prefix of a node at pos. */
  function Split(t: Tree, pos: nat): Tree
    requires t.Node? && pos < |t.prefix|
  {
    Node(0, t.prefix[..pos],
         Sparse([t.prefix[pos]], [Compact(t.(prefix := t.prefix[pos + 1..]))]))
  }

  /** nn_trie_subscribe on the subtree whose slot the walk has reached. */
  function Subscribe(t: Tree, d: Bytes): Tree
    requires WF(t)
    decreases |d|
  {
    if t.Null? then Chain(d)
    else
      var pos := Common(t.prefix, d);
      if pos < |t.prefix| then
        Extend(Split(t, pos), d[pos..])
      else if pos == |d| then
        t.(refcount := Bump(t.refcount))
      else if Child(t.kids, d[pos]).Null? then
        Extend(t, d[pos..])
      else
        t.(kids := SetSub(t.kids, Slot(t.kids, d[pos]), Subscribe(Child(t.kids, d[pos]), d[pos + 1..])))
  }

  /** The string of the node that this subscribe converts to a dense node (line 382), if s is it. */
  predicate Converts(t: Tree, d: Bytes, s: Bytes)
    requires WF(t)
    decreases |d|
  {
    && t.Node?
    && t.prefix <= d
    && |d| > |t.prefix|
    && var c := d[|t.prefix|];
       var ch := Child(t.kids, c);
       if ch.Null? then
         t.kids.Sparse? && |t.kids.chars| == SPARSE_MAX && s == t.prefix
       else
         t.prefix + [c] <= s && Converts(ch, d[|t.prefix| + 1..], s[|t.prefix| + 1..])
  }

  // ---------------------------------------------------------------- nn_node_unsubscribe

  /** NullRead: the source dereferences a NULL node (lines 492-493).  Overflow: it packs nine children
      into the eight places of a sparse node, which the assertion at line 621 then finds. */
  datatype Outcome = NullRead | Overflow | Done(code: int, tree: Tree)

  const EINVAL := 22

  /** Label `found`. */
  function Release(t: Tree): Outcome {
    if t.Null? || t.refcount == 0 then Done(-EINVAL, t)
    else if t.refcount > 1 then Done(0, t.(refcount := t.refcount - 1))
    else if t.kids.Sparse? && |t.kids.chars| == 0 then Done(1, Null)
    else Done(1, Compact(t.(refcount := 0)))
  }

  /** First index that holds a node, or |s|. */
  function FirstNode(s: seq<Tree>): (i: nat)
    ensures i <= |s| && (i < |s| ==> !s[i].Null?)
    ensures forall j :: 0 <= j < i ==> s[j].Null?
  {
    if s == [] || !s[0].Null? then 0 else 1 + FirstNode(s[1..])
  }

  /** Last index that holds a node, 0 if there is none. */
  function LastNode(s: seq<Tree>): (i: nat)
    ensures s != [] ==> i < |s|
    ensures forall j :: i < j < |s| ==> s[j].Null?
    ensures (i == 0 || i >= |s| || !s[i].Null?)
  {
    if |s| <= 1 || !s[|s| - 1].Null? then (if s == [] then 0 else |s| - 1)
    else LastNode(s[..|s| - 1])
  }

  /** Dense to sparse: the characters and children of the occupied slots, in order. */
  function PackChars(min: nat, subs: seq<Tree>): (r: Bytes)
    requires min + |subs| <= 256
  {
    if subs == [] then []
    else
      var n := |subs| - 1;
      PackChars(min, subs[..n]) + (if subs[n].Null? then [] else [min + n])
  }

  function PackSubs(subs: seq<Tree>): seq<Tree> {
    if subs == [] then []
    else
      var n := |subs| - 1;
      PackSubs(subs[..n]) + (if subs[n].Null? then [] else [subs[n]])
  }

  function RemoveAt<T>(s: seq<T>, i: nat): seq<T>
    requires i < |s|
  {
    s[..i] + s[i + 1..]
  }

  /** A dense node that stays dense: drop the child for c and move the limits when it was at an end. */
  function Trim(k: Kids, c: Byte): Kids
    requires k.Dense? && k.nbr > 0 && k.min <= c <= k.max && |k.subs| == k.max - k.min + 1
  {
    var cut := k.subs[c - k.min := Null];
    if c == k.min then
      var i := FirstNode(cut);
      if i < |cut| then Dense(k.min + i, k.max, k.nbr - 1, cut[i..])
      else k // not reached: other children remain
    else if c == k.max then
      var i := LastNode(cut);
      Dense(k.min, k.min + i, k.nbr - 1, cut[..i + 1])
    else
      Dense(k.min, k.max, k.nbr - 1, cut)
  }

  /** There is a child for c to be pruned, or a hole in a dense node that stays dense. */
  predicate Prunable(t: Tree, c: Byte) {
    && t.Node? && |t.prefix| <= PREFIX_MAX && WFKids(t.kids) && HasSlot(t.kids, c)
    && (Child(t.kids, c).Null? ==> t.kids.Dense? && t.kids.nbr > SPARSE_MAX + 1)
  }

  /** Pruning of the child for c, whose slot is already NULL.  A dense node that gets too small
      becomes a new sparse node whose refcount is 0, as line 607 does. */
  function Prune(t: Tree, c: Byte): Tree
    requires Prunable(t, c)
  {
    match t.kids
    case Sparse(chars, subs) =>
      var i := Find(chars, c);
      var k := Sparse(RemoveAt(chars, i), RemoveAt(subs, i));
      if k.chars == [] && t.refcount == 0 then Null
      else Compact(t.(kids := k))
    case Dense(min, max, nbr, subs) =>
      if nbr > SPARSE_MAX + 1 then
        t.(kids := Trim(t.kids, c))
      else
        var subs' := subs[c - min := Null];
        Node(0, t.prefix, Sparse(PackChars(min, subs'), PackSubs(subs')))
  }

  function Unsubscribe(t: Tree, d: Bytes): Outcome
    requires WF(t)
    decreases |d|
  {
    if d == [] then Release(t)
    else if t.Null? then NullRead
    else if !(t.prefix <= d) then Done(0, t)
    else if |d| == |t.prefix| then Release(t)
    else
      var c := d[|t.prefix|];
      if !HasSlot(t.kids, c) then Done(0, t)
      else
        var ch := Child(t.kids, c);
        var r := Unsubscribe(ch, d[|t.prefix| + 1..]);
        if !r.Done? then r
        else if r.code == 0 || !r.tree.Null? then
          Done(if r.code == 0 then 0 else 1, t.(kids := SetSub(t.kids, Slot(t.kids, c), r.tree)))
        else if !Prunable(t, c) then Overflow
        else Done(1, Prune(t, c))
  }
}
