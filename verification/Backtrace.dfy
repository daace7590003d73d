/** The backtrace that REQ and REP messages carry through a chain of devices: xrep.c, xreq.c, rep.c and
    the SP_HDR property with which core/global.c hands a header to a device and back. */
module Backtrace {
  import opened Wire

  type Pipe = nat

  /** A message above the transport: SP header and body.  Below it there is one piece, header first. */
  datatype Message = Message(sphdr: Bytes, body: Bytes)

  function OnWire(m: Message): Bytes { m.sphdr + m.body }

  // ---------------------------------------------------------------- raw REP, receiving

  /** The loop at xrep.c:219-233: how many words there are down to the bottom of the stack, the first
      word with the top bit set; None if the message ends before it. */
  datatype Count = None | Words(n: nat)

  function CountWords(b: Bytes): (c: Count)
    ensures c.Words? ==> c.n > 0 && 4 * c.n <= |b|
  {
    if |b| < 4 then None
    else if Get32(b[..4]) >= TOP_BIT then Words(1)
    else
      match CountWords(b[4..])
      case None => None
      case Words(n) => Words(n + 1)
  }

  datatype Received = Dropped | Got(msg: Message)

  /** nn_xrep_recv for a message that arrives on the pipe with this key.  Dropped stands for the
      message being thrown away with -EAGAIN. */
  function XrepRecv(key: nat, maxttl: int, wire: Bytes): Received
    requires key < TOP_BIT
  {
    match CountWords(wire)
    case None => Dropped
    case Words(n) =>
      if n > maxttl then Dropped
      else Got(Message(Put32(key) + wire[..4 * n], wire[4 * n..]))
  }

  // ---------------------------------------------------------------- raw REP, sending

  /** struct nn_xrep_data: the pipe behind a key, and NN_XREP_OUT. */
  datatype Entry = Entry(pipe: Pipe, out: bool)

  datatype Routed = Lost | Sent(pipe: Pipe, msg: Message)

  /** nn_xrep_send. */
  function XrepSend(table: map<nat, Entry>, m: Message): Routed {
    if |m.sphdr| < 4 then Lost
    else
      var key := Get32(m.sphdr[..4]);
      if key in table && table[key].out then Sent(table[key].pipe, m.(sphdr := m.sphdr[4..])) else Lost
  }

  // ---------------------------------------------------------------- REP

  /** NN_REP_INPROGRESS with the backtrace stored meanwhile. */
  datatype RepState = Waiting | InProgress(backtrace: Bytes)

  /** nn_rep_recv, given what nn_xrep_recv came up with: a request in progress is given up in any case. */
  function RepRecv(r: Received): (RepState, Received) {
    match r
    case Dropped => (Waiting, Dropped)
    case Got(m) => (InProgress(m.sphdr), Got(m.(sphdr := [])))
  }

  /** Aborts: the message has a header of its own, which nn_sendmsg takes from the user. */
  datatype RepSent = Efsm | Aborts | Passed(routed: Routed)

  /** nn_rep_send. */
  function RepSend(s: RepState, table: map<nat, Entry>, m: Message): RepSent {
    match s
    case Waiting => Efsm
    case InProgress(backtrace) => if m.sphdr != [] then Aborts else Passed(XrepSend(table, m.(sphdr := backtrace)))
  }

  // ---------------------------------------------------------------- raw REQ

  /** nn_xreq_recv. */
  function XreqRecv(wire: Bytes): Received {
    if |wire| < 4 then Dropped else Got(Message(wire[..4], wire[4..]))
  }

  // ---------------------------------------------------------------- devices

  const SIZE_T := 8
  const CMSGHDR := 16

  /** NN_CMSG_ALIGN_ and NN_CMSG_SPACE. */
  function Align(n: nat): nat { (n + SIZE_T - 1) / SIZE_T * SIZE_T }
  function Space(n: nat): nat { Align(n) + Align(CMSGHDR) }

  /** The SP_HDR property at the start of a control chunk of `total` bytes: its length field, the
      size_t before the header, and the bytes after it. */
  datatype Control = Control(total: nat, len: nat, spsz: nat, data: Bytes)

  /** nn_recvmsg, lines 921-968, with a chunk allocated by the library; `extra` is the size of the
      other properties. */
  function RecvControl(sphdr: Bytes, extra: nat): Control {
    var sptotalsz := Space(|sphdr| + SIZE_T);
    Control(sptotalsz + extra, sptotalsz, |sphdr|, sphdr)
  }

  /** nn_sendmsg, lines 804-823, for a control chunk whose first property is SP_HDR: the header of the
      message that is sent. */
  function SendHeader(c: Control): Bytes {
    if c.total < Space(0) || Align(c.len) > c.total || c.len < Space(0) then []
    else
      var clen := c.len - Space(0);
      if clen > SIZE_T && c.spsz <= clen - SIZE_T && c.spsz <= |c.data| then c.data[..c.spsz] else []
  }

  /** nn_device_mvmsg: receive with ancillary data, send the same. */
  function Forward(m: Message, extra: nat): Message {
    Message(SendHeader(RecvControl(m.sphdr, extra)), m.body)
  }

  /** A device hands on the header it got, whatever its length. */
  lemma ForwardKeeps(m: Message, extra: nat)
    ensures Forward(m, extra) == m
  {
    var n := |m.sphdr|;
    var c := RecvControl(m.sphdr, extra);
    assert Align(c.len) == c.len by {
      assert c.len == ((n + SIZE_T + SIZE_T - 1) / SIZE_T + 2) * SIZE_T;
      assert c.len % SIZE_T == 0;
    }
    assert c.len - Space(0) >= n + SIZE_T;
    assert m.sphdr[..n] == m.sphdr;
  }

  // ---------------------------------------------------------------- a chain

  /** One hop on the way to the replier, the replier included: the pipe the request comes in on, the
      key the raw REP socket there has given it, and that socket's NN_MAXTTL. */
  datatype Hop = Hop(pipe: Pipe, key: nat, maxttl: int)

  predicate HopsOk(hops: seq<Hop>) {
    forall i :: 0 <= i < |hops| ==> hops[i].key < TOP_BIT
  }

  /** The bytes a request has on the wire after passing the devices at the given hops. */
  function Travel(hops: seq<Hop>, wire: Bytes): Received
    requires HopsOk(hops)
  {
    if hops == [] then Got(Message([], wire))
    else
      match XrepRecv(hops[0].key, hops[0].maxttl, wire)
      case Dropped => Dropped
      case Got(m) => Travel(hops[1..], OnWire(Forward(m, 0)))
  }

  /** The backtrace: the keys of the hops, the latest first, above what was there. */
  function Stack(hops: seq<Hop>, bottom: Bytes): Bytes
    requires HopsOk(hops)
  {
    if hops == [] then bottom else Stack(hops[1..], Put32(hops[0].key) + bottom)
  }

  /** A stack of n words: n - 1 keys above a word with the top bit set. */
  predicate IsStack(b: Bytes, n: nat)
  {
    && n > 0 && |b| == 4 * n
    && if n == 1 then Get32(b) >= TOP_BIT else Get32(b[..4]) < TOP_BIT && IsStack(b[4..], n - 1)
  }

  lemma {:induction false} CountStack(b: Bytes, n: nat, body: Bytes)
    requires IsStack(b, n)
    ensures CountWords(b + body) == Words(n)
  {
    assert (b + body)[..4] == b[..4];
    if n == 1 {
      assert b[..4] == b;
    } else {
      assert (b + body)[4..] == b[4..] + body;
      CountStack(b[4..], n - 1, body);
    }
  }

  lemma PushStack(b: Bytes, n: nat, key: nat)
    requires IsStack(b, n) && key < TOP_BIT
    ensures IsStack(Put32(key) + b, n + 1)
  {
    Get32Put32(key);
    assert (Put32(key) + b)[..4] == Put32(key) && (Put32(key) + b)[4..] == b;
  }

  /** What a hop does to a request that carries a proper stack: it is dropped exactly when the stack
      is longer than the hop's TTL, and otherwise gets one more key. */
  lemma HopSpec(key: nat, maxttl: int, b: Bytes, n: nat, body: Bytes)
    requires IsStack(b, n) && key < TOP_BIT
    ensures XrepRecv(key, maxttl, b + body) == if n > maxttl then Dropped else Got(Message(Put32(key) + b, body))
  {
    CountStack(b, n, body);
    assert (b + body)[..4 * n] == b && (b + body)[4 * n..] == body;
  }

  /** The request passes the TTL check of every hop; n words are there at the first. */
  predicate Survives(hops: seq<Hop>, n: nat) {
    forall i :: 0 <= i < |hops| ==> n + i <= hops[i].maxttl
  }

  lemma SurvivesCons(hops: seq<Hop>, n: nat)
    requires hops != []
    ensures Survives(hops, n) <==> n <= hops[0].maxttl && Survives(hops[1..], n + 1)
  {
    if n <= hops[0].maxttl && Survives(hops[1..], n + 1) {
      forall i | 0 <= i < |hops| ensures n + i <= hops[i].maxttl {
        if i > 0 { assert n + 1 + (i - 1) <= hops[1..][i - 1].maxttl; }
      }
    }
  }

  lemma TravelHop(hops: seq<Hop>, b: Bytes, n: nat, body: Bytes)
    requires HopsOk(hops) && hops != [] && IsStack(b, n)
    ensures Travel(hops, b + body) ==
            if n > hops[0].maxttl then Dropped else Travel(hops[1..], Put32(hops[0].key) + b + body)
  {
    HopSpec(hops[0].key, hops[0].maxttl, b, n, body);
    ForwardKeeps(Message(Put32(hops[0].key) + b, body), 0);
  }

  /** What comes out of the hops. */
  function Passing(hops: seq<Hop>, b: Bytes, n: nat, body: Bytes): Received
    requires HopsOk(hops)
  {
    if Survives(hops, n) then Got(Message([], Stack(hops, b) + body)) else Dropped
  }

  lemma PassedHop(hops: seq<Hop>, b: Bytes, n: nat, body: Bytes)
    requires HopsOk(hops) && hops != []
    ensures Passing(hops, b, n, body) ==
            if n > hops[0].maxttl then Dropped else Passing(hops[1..], Put32(hops[0].key) + b, n + 1, body)
  {
    SurvivesCons(hops, n);
  }

  lemma {:induction false} StackIs(hops: seq<Hop>, b: Bytes, n: nat)
    requires HopsOk(hops) && IsStack(b, n)
    ensures IsStack(Stack(hops, b), n + |hops|)
  {
    if hops != [] {
      PushStack(b, n, hops[0].key);
      StackIs(hops[1..], Put32(hops[0].key) + b, n + 1);
    }
  }

  /** A request passes exactly when its stack is within the TTL of every hop, and the keys are stacked in
      order. */
  lemma {:induction false} TravelSpec(hops: seq<Hop>, b: Bytes, n: nat, body: Bytes)
    requires HopsOk(hops) && IsStack(b, n)
    ensures Travel(hops, b + body) ==
            if Survives(hops, n) then Got(Message([], Stack(hops, b) + body)) else Dropped
    ensures IsStack(Stack(hops, b), n + |hops|)
  {
    StackIs(hops, b, n);
    TravelIs(hops, b, n, body);
  }

  lemma {:induction false} TravelIs(hops: seq<Hop>, b: Bytes, n: nat, body: Bytes)
    requires HopsOk(hops) && IsStack(b, n)
    ensures Travel(hops, b + body) == Passing(hops, b, n, body)
  {
    if hops != [] {
      PushStack(b, n, hops[0].key);
      TravelHop(hops, b, n, body);
      TravelIs(hops[1..], Put32(hops[0].key) + b, n + 1, body);
      PassedHop(hops, b, n, body);
    }
  }

  /** The reply's way back through the devices at the given hops, the last hop first: the raw REQ
      socket takes it off the wire, the raw REP socket routes it.  The tables are those at the time the
      reply passes.  Returns the pipes it leaves on, and its bytes after the last. */
  datatype Reply = NoReply | Arrives(pipes: seq<Pipe>, wire: Bytes)

  function Return(tables: seq<map<nat, Entry>>, wire: Bytes): Reply {
    if tables == [] then Arrives([], wire)
    else
      var last := |tables| - 1;
      match XreqRecv(wire)
      case Dropped => NoReply
      case Got(m) =>
        match XrepSend(tables[last], Forward(m, 0))
        case Lost => NoReply
        case Sent(p, m') =>
          match Return(tables[..last], OnWire(m'))
          case NoReply => NoReply
          case Arrives(pipes, w) => Arrives([p] + pipes, w)
  }

  /** Every routing pipe is still registered under its key, and writable. */
  predicate StillThere(hops: seq<Hop>, tables: seq<map<nat, Entry>>) {
    && |tables| == |hops|
    && forall i :: 0 <= i < |hops| ==> hops[i].key in tables[i] && tables[i][hops[i].key] == Entry(hops[i].pipe, true)
  }

  function PipesOf(hops: seq<Hop>): seq<Pipe> {
    if hops == [] then [] else [hops[|hops| - 1].pipe] + PipesOf(hops[..|hops| - 1])
  }

  lemma {:induction false} StackSnoc(hops: seq<Hop>, bottom: Bytes)
    requires HopsOk(hops) && hops != []
    ensures Stack(hops, bottom) == Put32(hops[|hops| - 1].key) + Stack(hops[..|hops| - 1], bottom)
  {
    if |hops| > 1 {
      StackSnoc(hops[1..], Put32(hops[0].key) + bottom);
      assert hops[1..][..|hops| - 2] == hops[..|hops| - 1][1..];
    }
  }

  /** One socket on the way back pops its key and picks the pipe behind it. */
  lemma PopKey(table: map<nat, Entry>, key: nat, below: Bytes, body: Bytes)
    requires key < TOP_BIT && key in table && table[key].out
    ensures XrepSend(table, Message(Put32(key) + below, body)) == Sent(table[key].pipe, Message(below, body))
  {
    Get32Put32(key);
    assert (Put32(key) + below)[..4] == Put32(key) && (Put32(key) + below)[4..] == below;
  }

  lemma ReturnHop(tables: seq<map<nat, Entry>>, key: nat, rest: Bytes)
    requires tables != [] && key < TOP_BIT && key in tables[|tables| - 1] && tables[|tables| - 1][key].out
    ensures Return(tables, Put32(key) + rest) ==
            match Return(tables[..|tables| - 1], rest)
            case NoReply => NoReply
            case Arrives(pipes, w) => Arrives([tables[|tables| - 1][key].pipe] + pipes, w)
  {
    var wire := Put32(key) + rest;
    assert wire[..4] == Put32(key) && wire[4..] == rest;
    ForwardKeeps(Message(Put32(key), rest), 0);
    PopKey(tables[|tables| - 1], key, [], rest);
    assert Put32(key) + [] == Put32(key) && OnWire(Message([], rest)) == rest;
  }

  lemma {:induction false} ReturnSpec(hops: seq<Hop>, tables: seq<map<nat, Entry>>, bottom: Bytes, reply: Bytes)
    requires HopsOk(hops) && StillThere(hops, tables)
    ensures Return(tables, Stack(hops, bottom) + reply) == Arrives(PipesOf(hops), bottom + reply)
  {
    if hops != [] {
      var last := |hops| - 1;
      var below := Stack(hops[..last], bottom);
      StackSnoc(hops, bottom);
      assert Stack(hops, bottom) + reply == Put32(hops[last].key) + (below + reply);
      ReturnHop(tables, hops[last].key, below + reply);
      ReturnSpec(hops[..last], tables[..last], bottom, reply);
    }
  }

  /** The request at REP, the last hop. */
  function Arrive(hops: seq<Hop>, wire: Bytes): Received
    requires HopsOk(hops) && hops != []
  {
    var last := |hops| - 1;
    match Travel(hops[..last], wire)
    case Dropped => Dropped
    case Got(m) => XrepRecv(hops[last].key, hops[last].maxttl, m.body)
  }

  lemma ArriveSpec(hops: seq<Hop>, id: nat, request: Bytes)
    requires HopsOk(hops) && hops != [] && TOP_BIT <= id < MAX32
    ensures Arrive(hops, Put32(id) + request) ==
            if Survives(hops, 1) then Got(Message(Stack(hops, Put32(id)), request)) else Dropped
  {
    var last := |hops| - 1;
    Get32Put32(id);
    assert IsStack(Put32(id), 1);
    TravelSpec(hops[..last], Put32(id), 1, request);
    SurvivesSnoc(hops, 1);
    StackSnoc(hops, Put32(id));
    if Survives(hops[..last], 1) {
      HopSpec(hops[last].key, hops[last].maxttl, Stack(hops[..last], Put32(id)), 1 + last, request);
    }
  }

  /** The round trip.  REQ sends a request with its id at the bottom of an empty stack through any
      number of devices to REP (the last hop).  It is dropped on the way exactly when at some hop the
      number of words down to the id exceeds NN_MAXTTL.  Otherwise REP's user gets the request's body;
      and while the routing pipes stay registered and writable, the reply leaves on the same pipes in
      reverse, and REQ gets its own id as header and the reply as body. */
  lemma RoundTrip(hops: seq<Hop>, id: nat, request: Bytes, reply: Bytes, tables: seq<map<nat, Entry>>)
    requires HopsOk(hops) && hops != [] && TOP_BIT <= id < MAX32 && StillThere(hops, tables)
    ensures var got := RepRecv(Arrive(hops, OnWire(Message(Put32(id), request))));
            if !Survives(hops, 1) then got == (Waiting, Dropped)
            else
              && got.1 == Got(Message([], request))
              && var out := RepSend(got.0, tables[|hops| - 1], Message([], reply));
                 && out.Passed? && out.routed.Sent?
                 && var back := Return(tables[..|hops| - 1], OnWire(out.routed.msg));
                    && back.Arrives? && [out.routed.pipe] + back.pipes == PipesOf(hops)
                    && XreqRecv(back.wire) == Got(Message(Put32(id), reply))
  {
    ArriveSpec(hops, id, request);
    if Survives(hops, 1) {
      ReplyReturns(hops, id, reply, tables);
    }
  }

  /** The second half: from REP's stored backtrace back to REQ. */
  lemma ReplyReturns(hops: seq<Hop>, id: nat, reply: Bytes, tables: seq<map<nat, Entry>>)
    requires HopsOk(hops) && hops != [] && id < MAX32 && StillThere(hops, tables)
    ensures var out := XrepSend(tables[|hops| - 1], Message(Stack(hops, Put32(id)), reply));
            && out.Sent?
            && var back := Return(tables[..|hops| - 1], OnWire(out.msg));
               && back.Arrives? && [out.pipe] + back.pipes == PipesOf(hops)
               && XreqRecv(back.wire) == Got(Message(Put32(id), reply))
  {
    var last := |hops| - 1;
    var below := Stack(hops[..last], Put32(id));
    StackSnoc(hops, Put32(id));
    PopKey(tables[last], hops[last].key, below, reply);
    ReturnSpec(hops[..last], tables[..last], Put32(id), reply);
    assert (Put32(id) + reply)[..4] == Put32(id) && (Put32(id) + reply)[4..] == reply;
  }

  lemma SurvivesSnoc(hops: seq<Hop>, n: nat)
    requires hops != []
    ensures Survives(hops, n) <==> Survives(hops[..|hops| - 1], n) && n + |hops| - 1 <= hops[|hops| - 1].maxttl
  {
    var last := |hops| - 1;
    if Survives(hops[..last], n) && n + last <= hops[last].maxttl {
      forall i | 0 <= i < |hops| ensures n + i <= hops[i].maxttl {
        if i < last { assert n + i <= hops[..last][i].maxttl; }
      }
    }
  }
}
