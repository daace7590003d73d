/** The receiving end of PUB/SUB (protocols/pubsub/xsub.c): subscriptions in a trie, and a receive loop
    that throws away what does not match. */
module Xsub {
  import opened Wire
  import opened TrieModel
  import opened TrieTheory
  import opened TrieRuns
  import opened TrieMatch
  import TrieHeap

  /** A message waiting in the fair queue: its body, and the bytes behind it in memory. */
  datatype Arrival = Arrival(body: Bytes, behind: Bytes)

  /** What a receive ends with.  Strayed: nn_trie_match has read past the end of a body. */
  datatype Receipt = Eagain | Handed(body: Bytes) | Strayed

  /** nn_xsub_recv: the receipt and the messages still waiting. */
  function Receive(t: Tree, q: seq<Arrival>): (r: (Receipt, seq<Arrival>))
    ensures |r.1| <= |q| && (q != [] ==> |r.1| < |q|)
  {
    if q == [] then (Eagain, [])
    else
      match TrieMatch.Match(t, q[0].body + q[0].behind, |q[0].body|)
      case Miss => Receive(t, q[1..])
      case Hit => (Handed(q[0].body), q[1..])
      case Stray => (Strayed, q[1..])
  }

  /** The specification: the message starts with one of the subscribed strings. */
  ghost predicate Wanted(m: multiset<Bytes>, body: Bytes) {
    exists s :: s in m && s <= body
  }

  /** No message ends exactly at an unsubscribed node of the trie. */
  predicate NoneBare(t: Tree, q: seq<Arrival>) {
    forall i :: 0 <= i < |q| ==> !Bare(t, q[i].body)
  }

  /** None of those does that a receive looks at. */
  predicate Clear(t: Tree, q: seq<Arrival>) {
    q != [] ==>
      && !Bare(t, q[0].body)
      && (TrieMatch.Match(t, q[0].body + q[0].behind, |q[0].body|) == Hit || Clear(t, q[1..]))
  }

  lemma WantedIsSubscribed(t: Tree, m: multiset<Bytes>, body: Bytes)
    requires Represents(t, m)
    ensures Wanted(m, body) <==> Subscribed(t, body)
  {
    if s :| s in m && s <= body {
      assert body[..|s|] == s && Count(t, s) == m[s];
    }
    if n: nat :| n <= |body| && Count(t, body[..n]) > 0 {
      assert body[..n] in m && body[..n] <= body;
    }
  }

  /** A bare message is never wanted, but there are bytes behind it with which nn_trie_match lets it through. */
  lemma BareUnwanted(t: Tree, m: multiset<Bytes>, body: Bytes) returns (behind: Bytes)
    requires Represents(t, m) && Bare(t, body)
    ensures !Wanted(m, body)
    ensures |body + behind| <= SIZE_MAX ==> Receive(t, [Arrival(body, behind)]).0 == Handed(body)
  {
    behind := BareMisled(t, body);
    BareNotWanted(t, m, body);
  }

  lemma BareNotWanted(t: Tree, m: multiset<Bytes>, body: Bytes)
    requires Represents(t, m) && Bare(t, body)
    ensures !Wanted(m, body)
  {
    WantedIsSubscribed(t, m, body);
    BareNotSubscribed(t, body);
  }

  lemma HeadVerdict(t: Tree, m: multiset<Bytes>, a: Arrival)
    requires Represents(t, m) && !Bare(t, a.body)
    ensures TrieMatch.Match(t, a.body + a.behind, |a.body|) == if Wanted(m, a.body) then Hit else Miss
  {
    WantedIsSubscribed(t, m, a.body);
    MatchExact(t, a.body);
  }

  /** The receipt hands over the first wanted message of q, and `rest` is what came after it; EAGAIN
      stands for there being none, and for an empty rest. */
  ghost predicate First(m: multiset<Bytes>, q: seq<Arrival>, r: Receipt, rest: seq<Arrival>) {
    match r
    case Eagain => rest == [] && forall a :: a in q ==> !Wanted(m, a.body)
    case Handed(body) =>
      exists k :: 0 <= k < |q| && q[k].body == body && Wanted(m, body) && rest == q[k + 1..]
                  && forall a :: a in q[..k] ==> !Wanted(m, a.body)
    case Strayed => false
  }

  lemma FirstSkip(m: multiset<Bytes>, q: seq<Arrival>, r: Receipt, rest: seq<Arrival>)
    requires q != [] && !Wanted(m, q[0].body) && First(m, q[1..], r, rest)
    ensures First(m, q, r, rest)
  {
    if r.Handed? {
      var k :| 0 <= k < |q| - 1 && q[1..][k].body == r.body && Wanted(m, r.body) && rest == q[1..][k + 1..]
               && forall a :: a in q[1..][..k] ==> !Wanted(m, a.body);
      assert q[..k + 1] == [q[0]] + q[1..][..k];
      assert q[k + 1].body == r.body && q[1..][k + 1..] == q[k + 2..];
    } else {
      assert q == [q[0]] + q[1..];
    }
  }

  lemma {:induction false} ReceiveFirst(t: Tree, m: multiset<Bytes>, q: seq<Arrival>)
    requires Represents(t, m) && Clear(t, q)
    ensures First(m, q, Receive(t, q).0, Receive(t, q).1)
  {
    if q != [] {
      HeadVerdict(t, m, q[0]);
      if Wanted(m, q[0].body) {
        assert q[..0] == [];
      } else {
        ReceiveFirst(t, m, q[1..]);
        FirstSkip(m, q, Receive(t, q[1..]).0, Receive(t, q[1..]).1);
      }
    }
  }

  /** All that a user gets who receives until EAGAIN. */
  function Drain(t: Tree, q: seq<Arrival>): seq<Bytes>
    decreases |q|
  {
    var (r, rest) := Receive(t, q);
    if r.Handed? then [r.body] + Drain(t, rest) else []
  }

  ghost function Select(m: multiset<Bytes>, q: seq<Arrival>): seq<Bytes> {
    if q == [] then []
    else (if Wanted(m, q[0].body) then [q[0].body] else []) + Select(m, q[1..])
  }

  /** Exactly the wanted messages reach the user, in the order of arrival. */
  lemma {:induction false} DrainIsSelect(t: Tree, m: multiset<Bytes>, q: seq<Arrival>)
    requires Represents(t, m) && NoneBare(t, q)
    ensures Drain(t, q) == Select(m, q)
  {
    if q != [] {
      HeadVerdict(t, m, q[0]);
      DrainIsSelect(t, m, q[1..]);
      if !Wanted(m, q[0].body) {
        assert Drain(t, q) == Drain(t, q[1..]);
      }
    }
  }

  /** From a subscription on, every message that starts with the string is handed over. */
  lemma SubscriptionTakesEffect(t: Tree, m: multiset<Bytes>, s: Bytes, q: seq<Arrival>)
    requires Represents(t, m) && !Loses(t, Sub(s)) && NoneBare(Subscribe(t, s), q)
    requires forall i :: 0 <= i < |q| ==> s <= q[i].body
    ensures Drain(Subscribe(t, s), q) == seq(|q|, i requires 0 <= i < |q| => q[i].body)
  {
    NoHollow(t, s);
    StepRefines(t, m, Sub(s));
    DrainIsSelect(Subscribe(t, s), m + multiset{s}, q);
    AllSelected(m + multiset{s}, s, q);
  }

  lemma NoHollow(t: Tree, s: Bytes)
    requires !AtLimit(t, s)
    ensures Legal(t, Sub(s))
  {
    if Hollows(t, s) { HollowsAtLimit(t, s); }
  }

  lemma {:induction false} AllSelected(m: multiset<Bytes>, s: Bytes, q: seq<Arrival>)
    requires s in m && forall i :: 0 <= i < |q| ==> s <= q[i].body
    ensures Select(m, q) == seq(|q|, i requires 0 <= i < |q| => q[i].body)
  {
    if q != [] {
      AllSelected(m, s, q[1..]);
      assert Wanted(m, q[0].body);
    }
  }

  // ---------------------------------------------------------------- whole runs

  /** What can happen to a SUB socket. */
  datatype Event = Change(op: Op) | Arrive(a: Arrival) | UserRecv

  /** What is unsubscribed is subscribed, or its removal does no harm; no conversion hits a subscribed node and
      no count wraps; and no message that a receive looks at is bare. */
  ghost predicate Sound(t: Tree, q: seq<Arrival>, events: seq<Event>)
    requires WF(t)
    decreases |events|
  {
    events != [] ==>
      match events[0]
      case Change(op) =>
          Legal(t, op) && !Loses(t, op) && (ApplyWF(t, op); Sound(Apply(t, op), q, events[1..]))
      case Arrive(a) => Sound(t, q + [a], events[1..])
      case UserRecv => Clear(t, q) && Sound(t, Receive(t, q).1, events[1..])
  }

  /** The socket as it is: a trie and a queue; the receipts of all receives in order. */
  ghost function Receipts(t: Tree, q: seq<Arrival>, events: seq<Event>): seq<Receipt>
    requires WF(t) && Sound(t, q, events)
    decreases |events|
  {
    if events == [] then []
    else
      match events[0]
      case Change(op) => ApplyWF(t, op); Receipts(Apply(t, op), q, events[1..])
      case Arrive(a) => Receipts(t, q + [a], events[1..])
      case UserRecv => [Receive(t, q).0] + Receipts(t, Receive(t, q).1, events[1..])
  }

  /** The socket as its users think of it: a multiset of subscriptions and a queue. */
  ghost function IdealReceive(m: multiset<Bytes>, q: seq<Arrival>): (Receipt, seq<Arrival>) {
    if q == [] then (Eagain, [])
    else if Wanted(m, q[0].body) then (Handed(q[0].body), q[1..])
    else IdealReceive(m, q[1..])
  }

  ghost function IdealReceipts(m: multiset<Bytes>, q: seq<Arrival>, events: seq<Event>): seq<Receipt>
    decreases |events|
  {
    if events == [] then []
    else
      match events[0]
      case Change(op) => IdealReceipts(IdealStep(m, op), q, events[1..])
      case Arrive(a) => IdealReceipts(m, q + [a], events[1..])
      case UserRecv => [IdealReceive(m, q).0] + IdealReceipts(m, IdealReceive(m, q).1, events[1..])
  }

  lemma {:induction false} ReceiveIsIdeal(t: Tree, m: multiset<Bytes>, q: seq<Arrival>)
    requires Represents(t, m) && Clear(t, q)
    ensures Receive(t, q) == IdealReceive(m, q)
  {
    if q != [] {
      HeadVerdict(t, m, q[0]);
      if !Wanted(m, q[0].body) { ReceiveIsIdeal(t, m, q[1..]); }
    }
  }

  /** Over any run of subscriptions, unsubscriptions, arrivals and receives in any order, every receive
      gets what it would get from a multiset of subscriptions and the definition of a match. */
  lemma {:induction false} RunExact(t: Tree, m: multiset<Bytes>, q: seq<Arrival>, events: seq<Event>)
    requires Represents(t, m) && Sound(t, q, events)
    ensures Receipts(t, q, events) == IdealReceipts(m, q, events)
    decreases |events|
  {
    if events != [] {
      match events[0]
      case Change(op) =>
        ApplyWF(t, op);
        StepRefines(t, m, op);
        RunExact(Apply(t, op), IdealStep(m, op), q, events[1..]);
      case Arrive(a) => RunExact(t, m, q + [a], events[1..]);
      case UserRecv =>
        ReceiveIsIdeal(t, m, q);
        RunExact(t, m, Receive(t, q).1, events[1..]);
    }
  }

  // ---------------------------------------------------------------- struct nn_xsub, in place

  class Xsub {
    const trie: TrieHeap.Trie
    var fq: seq<Arrival>     // what the fair queue will hand over, in order

    constructor ()
      ensures trie.Valid() && fresh(trie) && trie.model == Null && fq == []
    {
      trie := new TrieHeap.Trie();
      fq := [];
    }

    /** nn_xsub_recv. */
    method Recv() returns (r: Receipt)
      requires trie.Valid()
      modifies `fq
      ensures (r, fq) == Receive(trie.model, old(fq))
    {
      while true
        invariant Receive(trie.model, fq) == Receive(trie.model, old(fq))
        decreases |fq|
      {
        if fq == [] {
          return Eagain;
        }
        var msg := fq[0];
        fq := fq[1..];
        var verdict := trie.Match(msg.body + msg.behind, |msg.body|);
        if verdict == Miss {
          continue;
        }
        return if verdict == Hit then Handed(msg.body) else Strayed;
      }
    }
  }
}
