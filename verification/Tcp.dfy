/** Messages over a TCP byte stream (transports/tcp/stcp.c): an 8-byte length and the header and body
    in one piece, and the machine that takes them off the stream again. */
module Tcp {
  import opened Wire

  // ---------------------------------------------------------------- the stream

  /** What nn_stcp_send writes for a message of this content. */
  function Frame(m: Bytes): Bytes
    requires |m| < MAX64
  {
    Put64(|m|) + m
  }

  predicate Sizes(ms: seq<Bytes>) {
    forall i :: 0 <= i < |ms| ==> |ms[i]| < MAX64
  }

  function Stream(ms: seq<Bytes>): Bytes
    requires Sizes(ms)
  {
    if ms == [] then [] else Frame(ms[0]) + Stream(ms[1..])
  }

  // ---------------------------------------------------------------- the inbound machine as a value

  datatype Instate = Hdr | Body | HasMsg

  /** `unread` are the bytes that have come in and that no nn_usock_recv has fetched; `arrived`, `taken` and
      `limits` are history: all bytes that have come in, the messages handed to the user, and what
      NN_RCVMAXSIZE was when each length was read. */
  datatype Stcp = Stcp(
    active: bool,
    instate: Instate,
    size: nat,
    inmsg: Bytes,
    unread: Bytes,
    arrived: Bytes,
    taken: seq<Bytes>,
    limits: seq<int>)

  const START := Stcp(true, Hdr, 0, [], [], [], [], [])

  /** How many bytes the pending nn_usock_recv wants. */
  function Wanted(x: Stcp): nat {
    if !x.active then 0 else if x.instate == Hdr then 8 else if x.instate == Body then x.size else 0
  }

  /** `rcvmaxsize` is NN_RCVMAXSIZE at the moment, negative for no limit; a user may set it at any time. */
  datatype Step = Arrive(bytes: Bytes) | Received(rcvmaxsize: int) | UserRecv

  /** NN_USOCK_RECEIVED comes when all the wanted bytes are there; a message is received by the user
      when the pipe has offered one. */
  predicate Enabled(x: Stcp, step: Step) {
    match step
    case Arrive(_) => true
    case Received(_) => x.active && x.instate != HasMsg && |x.unread| >= Wanted(x)
    case UserRecv => x.active && x.instate == HasMsg
  }

  predicate TooLarge(rcvmaxsize: int, size: nat) { rcvmaxsize >= 0 && size > rcvmaxsize }

  function Apply(x: Stcp, step: Step): Stcp
    requires Enabled(x, step)
  {
    match step
    case Arrive(b) => x.(unread := x.unread + b, arrived := x.arrived + b)
    case Received(rcvmaxsize) =>
      var n := Wanted(x);
      var got := x.unread[..n];
      var y := x.(unread := x.unread[n..]);
      if x.instate == Hdr then
        var size := Get64(got);
        var z := y.(limits := x.limits + [rcvmaxsize]);
        if TooLarge(rcvmaxsize, size) then z.(active := false, size := size)
        else z.(size := size, inmsg := [], instate := if size == 0 then HasMsg else Body)
      else y.(inmsg := got, instate := HasMsg)
    case UserRecv => x.(taken := x.taken + [x.inmsg], inmsg := [], instate := Hdr)
  }

  // ---------------------------------------------------------------- what it has understood

  /** The messages taken off the stream so far. */
  function Parsed(x: Stcp): seq<Bytes> {
    if x.active && x.instate == HasMsg then x.taken + [x.inmsg] else x.taken
  }

  /** The length that has been read without its message. */
  function Open(x: Stcp): Bytes {
    if !x.active || x.instate == Body then if x.size < MAX64 then Put64(x.size) else [] else []
  }

  /** How many lengths have been read. */
  function Lengths(x: Stcp): nat { |Parsed(x)| + if !x.active || x.instate == Body then 1 else 0 }

  /** The bytes that have come in are the frames of the messages taken off, a length maybe, and what is
      unread; no message is above the limit that was found with its length, and the connection is dropped
      at the first that is. */
  ghost predicate Inv(x: Stcp) {
    && Sizes(Parsed(x)) && x.size < MAX64
    && x.arrived == Stream(Parsed(x)) + Open(x) + x.unread
    && |x.limits| == Lengths(x)
    && (forall i :: 0 <= i < |Parsed(x)| ==> !TooLarge(x.limits[i], |Parsed(x)[i]|))
    && (x.active && x.instate == Body ==> x.size > 0 && !TooLarge(x.limits[|Parsed(x)|], x.size))
    && (!x.active ==> TooLarge(x.limits[|Parsed(x)|], x.size))
  }

  lemma Regroup(a: Bytes, b: Bytes, c: Bytes)
    ensures a + (b + c) == (a + b) + c
  {
  }

  lemma StreamHead(m: Bytes, ms: seq<Bytes>)
    requires |m| < MAX64 && Sizes(ms)
    ensures Sizes([m] + ms) && Stream([m] + ms) == Frame(m) + Stream(ms)
  {
    assert ([m] + ms)[1..] == ms;
  }

  lemma {:induction false} StreamAppend(ms: seq<Bytes>, more: seq<Bytes>)
    requires Sizes(ms) && Sizes(more)
    ensures Sizes(ms + more) && Stream(ms + more) == Stream(ms) + Stream(more)
  {
    if ms == [] {
      assert ms + more == more;
    } else {
      StreamAppend(ms[1..], more);
      assert ms + more == [ms[0]] + (ms[1..] + more);
      StreamHead(ms[0], ms[1..] + more);
      Regroup(Frame(ms[0]), Stream(ms[1..]), Stream(more));
    }
  }

  lemma StreamSnoc(ms: seq<Bytes>, m: Bytes)
    requires Sizes(ms) && |m| < MAX64
    ensures Sizes(ms + [m]) && Stream(ms + [m]) == Stream(ms) + Frame(m)
  {
    StreamAppend(ms, [m]);
    assert Stream([m]) == Frame(m) + Stream([]);
  }

  lemma Put64Get64(b: Bytes)
    requires |b| == 8
    ensures Put64(Get64(b)) == b
  {
    var hi, lo := Get32(b[..4]), Get32(b[4..]);
    assert Get64(b) / MAX32 == hi && Get64(b) % MAX32 == lo;
    Put32Get32(b[..4]);
    Put32Get32(b[4..]);
    assert b == b[..4] + b[4..];
  }

  lemma Cut(a: Bytes, b: Bytes, n: nat)
    requires n <= |b|
    ensures a + b == a + b[..n] + b[n..]
  {
    assert b == b[..n] + b[n..];
  }

  lemma HeaderRead(x: Stcp, limit: int) returns (size: nat)
    requires Inv(x) && Enabled(x, Received(limit)) && x.instate == Hdr
    ensures size < MAX64 && size == Get64(x.unread[..8])
    ensures x.arrived == Stream(x.taken) + Put64(size) + x.unread[8..]
  {
    assert Stream(x.taken) + Open(x) == Stream(x.taken);
    Cut(Stream(x.taken), x.unread, 8);
    size := Get64(x.unread[..8]);
    Put64Get64(x.unread[..8]);
  }

  /** A length has come in. */
  lemma HeaderKeeps(x: Stcp, limit: int)
    requires Inv(x) && Enabled(x, Received(limit)) && x.instate == Hdr
    ensures Inv(Apply(x, Received(limit)))
  {
    var size := HeaderRead(x, limit);
    if TooLarge(limit, size) || size > 0 { LengthKeeps(x, limit, size); } else { EmptyKeeps(x, limit); }
  }

  /** The length is kept for the body, or the connection is dropped. */
  lemma LengthKeeps(x: Stcp, limit: int, size: nat)
    requires Inv(x) && Enabled(x, Received(limit)) && x.instate == Hdr && size == Get64(x.unread[..8])
    requires size < MAX64 && (TooLarge(limit, size) || size > 0)
    requires x.arrived == Stream(x.taken) + Put64(size) + x.unread[8..]
    ensures Inv(Apply(x, Received(limit)))
  {
    var y := Apply(x, Received(limit));
    assert Parsed(y) == x.taken && Open(y) == Put64(size);
  }

  /** The message is there at once. */
  lemma EmptyKeeps(x: Stcp, limit: int)
    requires Inv(x) && Enabled(x, Received(limit)) && x.instate == Hdr && Get64(x.unread[..8]) == 0
    requires !TooLarge(limit, 0) && x.arrived == Stream(x.taken) + Put64(0) + x.unread[8..]
    ensures Inv(Apply(x, Received(limit)))
  {
    var y := Apply(x, Received(limit));
    EmptyMessage(x.taken, Put64(0));
    assert Parsed(y) == x.taken + [[]] && Open(y) == [];
    assert Stream(Parsed(y)) + [] == Stream(Parsed(y));
  }

  lemma EmptyMessage(ms: seq<Bytes>, got: Bytes)
    requires Sizes(ms) && |got| == 8 && got == Put64(0)
    ensures Sizes(ms + [[]]) && Stream(ms + [[]]) == Stream(ms) + got
  {
    StreamSnoc(ms, []);
    assert Frame([]) == got;
  }

  lemma BodyRead(x: Stcp, limit: int)
    requires Inv(x) && Enabled(x, Received(limit)) && x.instate == Body
    ensures var m := x.unread[..x.size];
            Sizes(x.taken + [m]) && x.arrived == Stream(x.taken + [m]) + x.unread[x.size..]
  {
    var m := x.unread[..x.size];
    Cut(Stream(x.taken) + Put64(x.size), x.unread, x.size);
    StreamSnoc(x.taken, m);
    assert Stream(x.taken) + Put64(x.size) + m == Stream(x.taken) + (Put64(x.size) + m);
  }

  lemma BodyKeeps(x: Stcp, limit: int)
    requires Inv(x) && Enabled(x, Received(limit)) && x.instate == Body
    ensures Inv(Apply(x, Received(limit)))
  {
    BodyRead(x, limit);
    var y := Apply(x, Received(limit));
    assert Stream(Parsed(y)) + Open(y) == Stream(Parsed(y));
  }

  lemma ArriveKeeps(x: Stcp, b: Bytes)
    requires Inv(x)
    ensures Inv(Apply(x, Arrive(b)))
  {
    Regroup(Stream(Parsed(x)) + Open(x), x.unread, b);
  }

  lemma TakeKeeps(x: Stcp)
    requires Inv(x) && Enabled(x, UserRecv)
    ensures Inv(Apply(x, UserRecv))
  {
    assert Parsed(Apply(x, UserRecv)) == Parsed(x) && Open(Apply(x, UserRecv)) == Open(x);
  }

  lemma StepKeeps(x: Stcp, step: Step)
    requires Inv(x) && Enabled(x, step)
    ensures Inv(Apply(x, step))
  {
    match step
    case Arrive(b) => ArriveKeeps(x, b);
    case Received(limit) => if x.instate == Hdr { HeaderKeeps(x, limit); } else { BodyKeeps(x, limit); }
    case UserRecv => TakeKeeps(x);
  }

  lemma StartInv()
    ensures Inv(START)
  {
    assert Stream([]) == [];
  }

  /** A run of the machine, from its start. */
  ghost predicate Run(xs: seq<Stcp>, steps: seq<Step>) {
    && |xs| == |steps| + 1 && xs[0] == START
    && forall i :: 0 <= i < |steps| ==> Enabled(xs[i], steps[i]) && xs[i + 1] == Apply(xs[i], steps[i])
  }

  lemma {:induction false} RunKeeps(xs: seq<Stcp>, steps: seq<Step>, n: nat)
    requires Run(xs, steps) && n <= |steps|
    ensures Inv(xs[n])
  {
    if n == 0 {
      StartInv();
    } else {
      RunKeeps(xs, steps, n - 1);
      StepKeeps(xs[n - 1], steps[n - 1]);
    }
  }

  // ---------------------------------------------------------------- against what was sent

  /** The messages before the first one above the limit that was found with its length. */
  function Acceptable(limits: seq<int>, ms: seq<Bytes>): seq<Bytes> {
    if ms == [] || limits == [] || TooLarge(limits[0], |ms[0]|) then []
    else [ms[0]] + Acceptable(limits[1..], ms[1..])
  }

  /** A length and something behind it at the start of a stream is the length of its first message. */
  lemma HeadSize(n: nat, rest: Bytes, ms: seq<Bytes>)
    requires n < MAX64 && Sizes(ms) && Put64(n) + rest <= Stream(ms)
    ensures ms != [] && |ms[0]| == n && rest <= ms[0] + Stream(ms[1..])
  {
    var s := Stream(ms);
    assert |Put64(n) + rest| >= 8 && |s| >= 8;
    assert s[..8] == Put64(n) && s[..8] == Put64(|ms[0]|);
    Get64Put64(n);
    Get64Put64(|ms[0]|);
    assert (Put64(n) + rest)[8..] == rest && s[8..] == ms[0] + Stream(ms[1..]);
  }

  /** The same for a whole frame. */
  lemma HeadFrame(m: Bytes, rest: Bytes, ms: seq<Bytes>)
    requires |m| < MAX64 && Sizes(ms) && Frame(m) + rest <= Stream(ms)
    ensures ms != [] && ms[0] == m && rest <= Stream(ms[1..])
  {
    assert Frame(m) + rest == Put64(|m|) + (m + rest);
    HeadSize(|m|, m + rest, ms);
    var t := ms[0] + Stream(ms[1..]);
    assert t[..|m|] == m && t[..|m|] == ms[0];
    assert (m + rest)[|m|..] == rest && t[|m|..] == Stream(ms[1..]);
  }

  /** Nothing but what was sent is taken off the stream: parsing is unambiguous. */
  lemma {:induction false} FramesArePrefix(ds: seq<Bytes>, rest: Bytes, ms: seq<Bytes>)
    requires Sizes(ds) && Sizes(ms) && Stream(ds) + rest <= Stream(ms)
    ensures ds <= ms && rest <= Stream(ms[|ds|..])
  {
    if ds == [] {
      assert Stream(ds) + rest == rest && ms[0..] == ms;
    } else {
      assert Stream(ds) + rest == Frame(ds[0]) + (Stream(ds[1..]) + rest);
      HeadFrame(ds[0], Stream(ds[1..]) + rest, ms);
      FramesArePrefix(ds[1..], rest, ms[1..]);
      assert ms[1..][|ds| - 1..] == ms[|ds|..];
      assert ds == [ds[0]] + ds[1..] && ms == [ms[0]] + ms[1..];
    }
  }

  /** Safety, at any moment, however the bytes are cut up on the way: what has been taken off the stream
      is a prefix of what the peer sent. */
  lemma TakenIsPrefix(x: Stcp, ms: seq<Bytes>)
    requires Inv(x) && Sizes(ms) && x.arrived <= Stream(ms)
    ensures x.taken <= Parsed(x) <= ms
  {
    assert Stream(Parsed(x)) + Open(x) + x.unread == Stream(Parsed(x)) + (Open(x) + x.unread);
    FramesArePrefix(Parsed(x), Open(x) + x.unread, ms);
  }

  lemma {:induction false} AcceptablePrefix(limits: seq<int>, ds: seq<Bytes>, ms: seq<Bytes>)
    requires ds <= ms && |limits| >= |ds| && forall i :: 0 <= i < |ds| ==> !TooLarge(limits[i], |ds[i]|)
    requires ds == ms || (|limits| > |ds| && TooLarge(limits[|ds|], |ms[|ds|]|))
    ensures Acceptable(limits, ms) == ds
  {
    if ds != [] {
      AcceptablePrefix(limits[1..], ds[1..], ms[1..]);
      assert ds == [ds[0]] + ds[1..];
    }
  }

  /** Nothing is left to happen: no event of the usock, no receive. */
  predicate Quiet(x: Stcp) { !Enabled(x, Received(0)) && !Enabled(x, UserRecv) }

  /** Completeness: when all that the peer sent has come in, and nothing is left to happen, the user has
      exactly the messages before the first one above what NN_RCVMAXSIZE was when its length was read, and
      the connection is dropped exactly when there is such a message. */
  lemma AllTaken(x: Stcp, ms: seq<Bytes>)
    requires Inv(x) && Sizes(ms) && x.arrived == Stream(ms)
    requires Quiet(x)
    ensures x.taken == Acceptable(x.limits, ms) && (x.active <==> x.taken == ms)
  {
    var left := Rest(x, ms);
    if x.active {
      NothingLeft(x, left);
    } else {
      HeadSize(x.size, x.unread, left);
    }
    AcceptablePrefix(x.limits, x.taken, ms);
  }

  /** The messages of the stream that have not been taken off. */
  lemma Rest(x: Stcp, ms: seq<Bytes>) returns (left: seq<Bytes>)
    requires Inv(x) && Sizes(ms) && x.arrived == Stream(ms) && Quiet(x)
    ensures x.taken <= ms && left == ms[|x.taken|..] && ms == x.taken + left
    ensures Sizes(left) && Stream(left) == Open(x) + x.unread
  {
    var ds, rest := x.taken, Open(x) + x.unread;
    Regroup(Stream(ds), Open(x), x.unread);
    FramesArePrefix(ds, rest, ms);
    left := ms[|ds|..];
    assert ms == ds + left;
    StreamAppend(ds, left);
    assert (Stream(ds) + rest)[|Stream(ds)|..] == rest;
  }

  lemma NothingLeft(x: Stcp, left: seq<Bytes>)
    requires Inv(x) && x.active && Sizes(left) && Stream(left) == Open(x) + x.unread
    requires Quiet(x)
    ensures left == []
  {
    assert left != [] ==> |Stream(left)| >= 8 + |left[0]|;
    if x.instate == Body {
      HeadSize(x.size, x.unread, left);
    }
  }

  // ---------------------------------------------------------------- struct nn_stcp, in place

  datatype Outstate = Idle | Sending

  class Session {
    var active: bool
    var instate: Instate
    var size: nat
    var inmsg: Bytes
    var outstate: Outstate
    var unread: Bytes        // the receiving side of the usock
    var sent: Bytes          // all bytes given to the usock for sending
    ghost var arrived: Bytes
    ghost var taken: seq<Bytes>
    ghost var limits: seq<int>
    ghost var handed: seq<Bytes>   // the messages sent so far, header and body in one

    ghost function Value(): Stcp
      reads this
    {
      Stcp(active, instate, size, inmsg, unread, arrived, taken, limits)
    }

    /** The bytes given to the usock are the stream of the messages sent. */
    ghost predicate Framed()
      reads this
    {
      Sizes(handed) && sent == Stream(handed)
    }

    /** The session as it becomes ACTIVE (lines 277-294). */
    constructor ()
      ensures Value() == START && outstate == Idle && Framed() && handed == []
    {
      active, instate, size, inmsg, unread := true, Hdr, 0, [], [];
      outstate, sent, arrived, taken, limits, handed := Idle, [], [], [], [], [];
    }

    /** nn_stcp_send. */
    method Send(sphdr: Bytes, body: Bytes)
      requires active && outstate == Idle && |sphdr| + |body| < MAX64 && Framed()
      modifies `sent, `outstate, `handed
      ensures sent == old(sent) + Frame(sphdr + body) && outstate == Sending
      ensures Framed() && handed == old(handed) + [sphdr + body]
    {
      var outhdr := Put64(|sphdr| + |body|);
      StreamSnoc(handed, sphdr + body);
      Regroup(sent, outhdr, sphdr + body);
      Regroup(sent + outhdr, sphdr, body);
      handed := handed + [sphdr + body];
      sent := sent + outhdr + sphdr + body;
      outstate := Sending;
    }

    /** NN_USOCK_SENT. */
    method OnSent()
      requires active && outstate == Sending
      modifies `outstate
      ensures outstate == Idle
    {
      outstate := Idle;
    }

    /** Bytes come in. */
    method OnBytes(bytes: Bytes)
      modifies `unread, `arrived
      ensures Value() == Apply(old(Value()), Arrive(bytes))
    {
      unread := unread + bytes;
      arrived := arrived + bytes;
    }

    /** NN_USOCK_RECEIVED (lines 322-372), with the NN_RCVMAXSIZE that it finds. */
    method OnReceived(rcvmaxsize: int)
      requires Enabled(Value(), Received(rcvmaxsize))
      modifies `unread, `active, `instate, `size, `inmsg, `limits
      ensures Value() == Apply(old(Value()), Received(rcvmaxsize))
    {
      var n := if instate == Hdr then 8 else size;
      var got := unread[..n];
      unread := unread[n..];
      match instate
      case Hdr =>
        size := Get64(got);
        limits := limits + [rcvmaxsize];
        if rcvmaxsize >= 0 && size > rcvmaxsize {
          active := false;
          return;
        }
        inmsg := [];
        if size == 0 {
          instate := HasMsg;
          return;
        }
        instate := Body;
      case Body =>
        inmsg := got;
        instate := HasMsg;
    }

    /** nn_stcp_recv. */
    method Recv() returns (msg: Bytes)
      requires Enabled(Value(), UserRecv)
      modifies `inmsg, `instate, `taken
      ensures msg == old(inmsg) && Value() == Apply(old(Value()), UserRecv)
    {
      msg := inmsg;
      taken := taken + [msg];
      inmsg := [];
      instate := Hdr;
    }
  }
}
