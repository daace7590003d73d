/** nn_trie_match against its specification "some subscribed string is a prefix of the data", and
    the receive loop of SUB that filters messages with it. */
module TrieMatch {
  import opened Wire
  import opened TrieModel
  import opened TrieKids
  import opened TrieTheory

  const SIZE_MAX := 0xFFFF_FFFF_FFFF_FFFF

  /** Stray: the walk reads a byte that is not in the memory it was given. */
  datatype Verdict = Miss | Hit | Stray

  datatype Check = Full | Part | Overrun

  /** nn_node_check_prefix over raw memory: mem holds the bytes from the data pointer on, size is the
      counter of bytes that belong to the data. */
  function PrefixInMemory(p: Bytes, mem: Bytes, size: nat): Check
    decreases |p|
  {
    if p == [] then Full
    else if size == 0 then Part
    else if mem == [] then Overrun
    else if p[0] != mem[0] then Part
    else PrefixInMemory(p[1..], mem[1..], size - 1)
  }

  /** The walk of nn_trie_match.  It moves to the next byte without asking whether any is left
      (lines 464-468): at size 0 it reads past the data, and the counter wraps to SIZE_MAX. */
  function Match(t: Tree, mem: Bytes, size: nat): Verdict
    decreases |mem|
  {
    if t.Null? then Miss
    else
      match PrefixInMemory(t.prefix, mem, size)
      case Overrun => Stray
      case Part => Miss
      case Full =>
        if t.refcount > 0 then Hit
        else if |mem| <= |t.prefix| then Stray
        else
          var left := size - |t.prefix|;
          Match(Child(t.kids, mem[|t.prefix|]), After(t.prefix, mem),
                if left <= 0 then SIZE_MAX else left - 1)
  }

  /** The specification: some subscribed string is a prefix of the data. */
  ghost predicate Subscribed(t: Tree, data: Bytes) {
    exists n: nat :: n <= |data| && Count(t, data[..n]) > 0
  }

  /** The data ends exactly at the end of an unsubscribed node, and nothing on the way is subscribed:
      the case in which the walk steps past the data. */
  predicate Bare(t: Tree, data: Bytes)
    decreases |data|
  {
    && t.Node? && t.prefix <= data && t.refcount == 0
    && (|data| == |t.prefix| || Bare(Child(t.kids, data[|t.prefix|]), After(t.prefix, data)))
  }

  lemma {:induction false} PrefixInMemorySpec(p: Bytes, mem: Bytes, size: nat)
    ensures PrefixInMemory(p, mem, size).Full? <==> p <= mem && |p| <= size
    ensures size <= |mem| ==> !PrefixInMemory(p, mem, size).Overrun?
  {
    if p != [] && mem != [] && size > 0 {
      PrefixInMemorySpec(p[1..], mem[1..], size - 1);
      assert p == [p[0]] + p[1..] && mem == [mem[0]] + mem[1..];
    }
  }

  lemma SubscribedStep(t: Tree, data: Bytes)
    ensures Subscribed(t, data) <==>
            && t.Node? && t.prefix <= data
            && (t.refcount > 0
                || (|data| > |t.prefix|
                    && Subscribed(Child(t.kids, data[|t.prefix|]), After(t.prefix, data))))
  {
    if t.Node? {
      var p := t.prefix;
      if p <= data && t.refcount > 0 {
        assert data[..|p|] == p;
        assert Count(t, data[..|p|]) > 0;
      }
      if p <= data && |data| > |p| {
        var ch, r := Child(t.kids, data[|p|]), After(p, data);
        forall n: nat | n <= |r| ensures Count(ch, r[..n]) > 0 ==> Count(t, data[..|p| + 1 + n]) > 0 {
          CutInner(p, data, n);
        }
      }
      forall n: nat | n <= |data| && Count(t, data[..n]) > 0
        ensures p <= data && (n == |p| || (n > |p| && |data| > |p|
                && Count(Child(t.kids, data[|p|]), After(p, data)[..n - |p| - 1]) > 0))
      {
        assert p <= data[..n] <= data;
        if n > |p| { CutInner(p, data, n - |p| - 1); }
      }
    }
  }

  lemma CutInner(p: Bytes, data: Bytes, n: nat)
    requires p <= data && |p| + 1 + n <= |data|
    ensures p <= data[..|p| + 1 + n] && data[..|p| + 1 + n][|p|] == data[|p|]
    ensures After(p, data[..|p| + 1 + n]) == After(p, data)[..n]
  {
  }

  lemma BareNotSubscribed(t: Tree, data: Bytes)
    requires Bare(t, data)
    ensures !Subscribed(t, data)
    decreases |data|
  {
    SubscribedStep(t, data);
    if |data| > |t.prefix| {
      BareNotSubscribed(Child(t.kids, data[|t.prefix|]), After(t.prefix, data));
    }
  }

  /** Away from the bare case the verdict is the specification, whatever lies behind the data. */
  lemma {:induction false} MatchWithin(t: Tree, mem: Bytes, size: nat)
    requires size <= |mem| && !Bare(t, mem[..size])
    ensures Match(t, mem, size) == if Subscribed(t, mem[..size]) then Hit else Miss
    decreases |mem|
  {
    SubscribedStep(t, mem[..size]);
    if t.Node? {
      var p := t.prefix;
      PrefixInMemorySpec(p, mem, size);
      if p <= mem && |p| <= size {
        assert p <= mem[..size];
        if t.refcount == 0 {
          assert size > |p|;
          assert After(p, mem)[..size - |p| - 1] == After(p, mem[..size]);
          MatchWithin(Child(t.kids, mem[|p|]), After(p, mem), size - |p| - 1);
        }
      } else {
        assert p <= mem[..size] ==> p <= mem;
      }
    }
  }

  /** Once the counter has wrapped, the walk ignores where the data ended: it hits as soon as the
      memory starts with a subscribed string. */
  lemma {:induction false} MatchWrapped(t: Tree, s: Bytes, size: nat)
    requires Count(t, s) > 0 && |s| <= size
    ensures Match(t, s, size) == Hit
    decreases |s|
  {
    PrefixInMemorySpec(t.prefix, s, size);
    if t.refcount == 0 {
      MatchWrapped(Child(t.kids, s[|t.prefix|]), After(t.prefix, s), size - |t.prefix| - 1);
    }
  }

  /** Memory that makes the walk report a match for bare data. */
  lemma {:induction false} BareMisled(t: Tree, data: Bytes) returns (tail: Bytes)
    requires WF(t) && Bare(t, data)
    ensures |tail| > 0 && Count(t, data + tail) > 0
    ensures |data + tail| <= SIZE_MAX ==> Match(t, data + tail, |data|) == Hit
    decreases |data|
  {
    var p := t.prefix;
    if |data| == |p| {
      tail := SubscriptionBelow(t);
      assert data == p;
      MisledHere(t, tail);
    } else {
      WFChild(t, data[|p|]);
      tail := BareMisled(Child(t.kids, data[|p|]), After(p, data));
      MisledBelow(t, data, tail);
    }
  }

  lemma MisledHere(t: Tree, tail: Bytes)
    requires WF(t) && t.Node? && t.refcount == 0 && tail != [] && Count(Child(t.kids, tail[0]), tail[1..]) > 0
    ensures var mem := t.prefix + tail; |mem| <= SIZE_MAX ==> Match(t, mem, |t.prefix|) == Hit
  {
    var mem := t.prefix + tail;
    PrefixInMemorySpec(t.prefix, mem, |t.prefix|);
    if |mem| <= SIZE_MAX {
      WFChild(t, tail[0]);
      MatchWrapped(Child(t.kids, tail[0]), tail[1..], SIZE_MAX);
      assert After(t.prefix, mem) == tail[1..] && mem[|t.prefix|] == tail[0];
    }
  }

  lemma MisledBelow(t: Tree, data: Bytes, tail: Bytes)
    requires t.Node? && t.refcount == 0 && t.prefix <= data && |data| > |t.prefix|
    ensures var ch, r, mem := Child(t.kids, data[|t.prefix|]), After(t.prefix, data), data + tail;
            && Count(t, mem) == Count(ch, r + tail)
            && Match(t, mem, |data|) == Match(ch, r + tail, |r|)
  {
    var mem := data + tail;
    PrefixInMemorySpec(t.prefix, mem, |data|);
    assert t.prefix <= mem && After(t.prefix, mem) == After(t.prefix, data) + tail;
  }

  lemma {:induction false} BareStrays(t: Tree, data: Bytes)
    requires Bare(t, data)
    ensures Match(t, data, |data|) == Stray
    decreases |data|
  {
    PrefixInMemorySpec(t.prefix, data, |data|);
    if |data| > |t.prefix| {
      BareStrays(Child(t.kids, data[|t.prefix|]), After(t.prefix, data));
    }
  }

  /** nn_trie_match answers the question "is some subscribed string a prefix of the data", whatever
      bytes follow the data in memory, exactly when the data is not bare. */
  lemma MatchExact(t: Tree, data: Bytes)
    ensures (forall tail :: Match(t, data + tail, |data|) == if Subscribed(t, data) then Hit else Miss)
       <==> !Bare(t, data)
  {
    if Bare(t, data) {
      BareStrays(t, data);
      assert data + [] == data;
      assert Match(t, data + [], |data|) == Stray;
    } else {
      forall tail ensures Match(t, data + tail, |data|) == if Subscribed(t, data) then Hit else Miss {
        assert (data + tail)[..|data|] == data;
        MatchWithin(t, data + tail, |data|);
      }
    }
  }
}
