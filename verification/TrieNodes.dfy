/** The node-level routines of trie.c, in place. */
module TrieNodes {
  import opened Wire
  import opened TrieModel
  import opened TrieKids
  import opened TrieTheory
  import opened TrieShape

  /** nn_node_check_prefix. */
  method CheckPrefix(node: TrieNode, data: Bytes) returns (n: nat)
    ensures n == Common(node.prefix, data)
  {
    var p := node.prefix;
    n := 0;
    while n != |p|
      invariant n <= |p| && n <= |data| && p[..n] == data[..n]
    {
      if n == |data| || p[n] != data[n] {
        break;
      }
      n := n + 1;
    }
    CommonIs(p, data, n);
  }

  lemma CommonIs(p: Bytes, d: Bytes, n: nat)
    requires n <= |p| && n <= |d| && p[..n] == d[..n]
    requires n < |p| && n < |d| ==> p[n] != d[n]
    ensures Common(p, d) == n
  {
    var m := Common(p, d);
    assert forall i :: 0 <= i < n ==> p[..n][i] == d[..n][i];
    assert forall i :: 0 <= i < m ==> p[..m][i] == d[..m][i];
  }

  /** nn_node_next: the index of the slot for c, -1 for a NULL result. */
  method Next(node: TrieNode, c: Byte, ghost t: Tree) returns (index: int)
    requires Header(node, t) && WFKids(t.kids)
    ensures HasSlot(t.kids, c) ==> index == Slot(t.kids, c) && 0 <= index < |t.kids.subs|
    ensures !HasSlot(t.kids, c) ==> index == -1
  {
    if node.ntype == 0 {
      return -1;
    }
    if node.ntype <= SPARSE_MAX {
      index := 0;
      while index != node.ntype
        invariant 0 <= index <= node.ntype
        invariant forall j :: 0 <= j < index ==> node.chars[j] != c
      {
        if node.chars[index] == c {
          FindFirst(node.chars, c, index);
          return;
        }
        index := index + 1;
      }
      FindFirst(node.chars, c, |node.chars|);
      return -1;
    }
    if c < node.min || c > node.max {
      return -1;
    }
    return c - node.min;
  }

  /** nn_node_compact. */
  method CompactNode(node: TrieNode, ghost s: Shape, ghost t: Tree) returns (r: TrieNode, ghost s': Shape)
    requires Ptr(s) == node && Rep(s, t) && Apart(s)
    requires WFKids(t.kids)
    modifies Objs(s)
    ensures Holds(r, s', Compact(t)) && Objs(s') <= Objs(s)
  {
    r, s' := node, s;
    if node.refcount != 0 {
      return;
    }
    if node.ntype != 1 {
      return;
    }
    var ch := node.child[0];
    assert t.kids.subs[0].Node? && ch != null && Rep(s.subs[0], t.kids.subs[0]);
    if |node.prefix| + |ch.prefix| + 1 > PREFIX_MAX {
      return;
    }
    assert node != ch by { assert ch in Objs(s.subs[0]); }
    r, s' := ch, s.subs[0];
    assert Apart(s') && ch == s'.obj && ApartAll(s'.subs, ch, s'.foot);
    assert forall i :: 0 <= i < |s'.subs| ==>
             ch !in Objs(s'.subs[i]) && Rep(s'.subs[i], t.kids.subs[0].kids.subs[i]);
    ch.prefix := node.prefix + [node.chars[0]] + ch.prefix;
    RepPrefix(s', t.kids.subs[0], Compact(t));
  }

  /** Two values that differ only in refcount and prefix have the same children below. */
  lemma RepPrefix(s: Shape, t: Tree, t': Tree)
    requires s.At? && t.Node? && t'.Node? && t'.kids == t.kids
    requires Apart(s) && Header(s.obj, t') && |s.subs| == |t.kids.subs| == |s.obj.child|
    requires forall i :: 0 <= i < |s.subs| ==> s.obj.child[i] == Ptr(s.subs[i]) && Rep(s.subs[i], t.kids.subs[i])
    ensures Rep(s, t')
  {
    assert ApartAll(s.subs, s.obj, s.foot);
  }

  /** Lines 297-299: drop the first pos + 1 bytes of the prefix and compact. */
  method Shorten(ch: TrieNode, pos: nat, ghost s: Shape, ghost t: Tree) returns (r: TrieNode, ghost s': Shape)
    requires Ptr(s) == ch && Rep(s, t) && Apart(s) && WFKids(t.kids) && pos < |t.prefix|
    modifies Objs(s)
    ensures Holds(r, s', Compact(t.(prefix := t.prefix[pos + 1..]))) && Objs(s') <= Objs(s)
  {
    assert ApartAll(s.subs, ch, s.foot);
    assert forall j :: 0 <= j < |s.subs| ==> Rep(s.subs[j], t.kids.subs[j]);
    ch.prefix := ch.prefix[pos + 1..];
    RepPrefix(s, t, t.(prefix := t.prefix[pos + 1..]));
    r, s' := CompactNode(ch, s, t.(prefix := t.prefix[pos + 1..]));
  }
}
