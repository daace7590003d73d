/** Taking an element out of a sequence. */
module Seqs {

  function Erase<T(==)>(q: seq<T>, p: T): seq<T> {
    if q == [] then [] else if q[0] == p then q[1..] else [q[0]] + Erase(q[1..], p)
  }

  lemma {:induction false} EraseSpec<T>(q: seq<T>, p: T)
    ensures multiset(Erase(q, p)) == multiset(q) - multiset{p}
  {
    if q != [] {
      assert q == [q[0]] + q[1..];
      assert multiset(q) == multiset{q[0]} + multiset(q[1..]);
      if q[0] != p {
        EraseSpec(q[1..], p);
        assert multiset(Erase(q, p)) == multiset{q[0]} + multiset(Erase(q[1..], p));
      }
    }
  }

  lemma {:induction false} EraseAppend<T>(q: seq<T>, r: seq<T>, p: T)
    ensures Erase(q + r, p) == if p in q then Erase(q, p) + r else q + Erase(r, p)
  {
    if q == [] {
      assert q + r == r;
    } else {
      assert (q + r)[1..] == q[1..] + r;
      if q[0] != p {
        EraseAppend(q[1..], r, p);
        assert p in q <==> p in q[1..];
      }
    }
  }

  lemma {:induction false} EraseAbsent<T>(q: seq<T>, p: T)
    requires p !in q
    ensures Erase(q, p) == q
  {
    if q != [] { EraseAbsent(q[1..], p); }
  }
}
