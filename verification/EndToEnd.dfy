/** REQ, any chain of devices, and REP put together. */
module EndToEnd {
  import opened Options
  import opened Wire
  import B = Backtrace
  import R = Req
  import Theory = ReqTheory
  import T = TimerModel

  lemma KeyHasTopBit(id: nat)
    requires id < MAX32
    ensures TOP_BIT <= R.Key(id) < MAX32
  {
  }

  /** What REQ last put on the wire. */
  function OnWire(s: R.Socket): Bytes
    requires Theory.Inv(s) && s.state == R.Active
  {
    var sent := s.wire[|s.wire| - 1];
    Put32(sent.1) + sent.2
  }

  /** The message that comes back to REQ when the request went through these hops and REP's user answers
      it, if one does. */
  function Answer(hops: seq<B.Hop>, tables: seq<map<nat, B.Entry>>, request: Bytes, reply: Bytes): Option<Bytes>
    requires B.HopsOk(hops) && hops != [] && |tables| == |hops|
  {
    var got := B.RepRecv(B.Arrive(hops, request));
    if got.1.Dropped? then None
    else
      match B.RepSend(got.0, tables[|hops| - 1], B.Message([], reply))
      case Passed(Sent(_, m)) =>
        (match B.Return(tables[..|hops| - 1], B.OnWire(m))
         case NoReply => None
         case Arrives(_, wire) => Some(wire))
      case _ => None
  }

  lemma AnswerIs(hops: seq<B.Hop>, tables: seq<map<nat, B.Entry>>, id: nat, request: Bytes, reply: Bytes)
    requires B.HopsOk(hops) && hops != [] && B.StillThere(hops, tables) && TOP_BIT <= id < MAX32
    ensures Answer(hops, tables, Put32(id) + request, reply) ==
            if B.Survives(hops, 1) then Some(Put32(id) + reply) else None
  {
    B.RoundTrip(hops, id, request, reply, tables);
    var answer := Answer(hops, tables, Put32(id) + request, reply);
    if answer.Some? { assert answer.value == answer.value[..4] + answer.value[4..]; }
  }

  /** The answer to the request that is out reaches the user who sent it: it takes REQ out of ACTIVE,
      with the replier's body stored for the next receive; and it does so exactly when the request
      passes the TTL check of every hop. */
  lemma ReplyReachesUser(s: R.Socket, hops: seq<B.Hop>, tables: seq<map<nat, B.Entry>>, reply: Bytes, c: R.Choice)
    requires Theory.Inv(s) && s.state == R.Active && R.Enabled(s, R.Arrive([]), c)
    requires B.HopsOk(hops) && hops != [] && B.StillThere(hops, tables)
    ensures var answer := Answer(hops, tables, OnWire(s), reply);
            && (answer.Some? <==> B.Survives(hops, 1))
            && (answer.Some? ==>
                  var r := R.In(s, [answer.value], c);
                  r.Ok? && r.socket.state == R.StoppingTimer && r.socket.reply == R.Whole(reply))
  {
    AnswerOf(s, hops, tables, reply);
    Accepted(s, reply, c);
  }

  lemma AnswerOf(s: R.Socket, hops: seq<B.Hop>, tables: seq<map<nat, B.Entry>>, reply: Bytes)
    requires Theory.Inv(s) && s.state == R.Active && B.HopsOk(hops) && hops != [] && B.StillThere(hops, tables)
    ensures Answer(hops, tables, OnWire(s), reply) ==
            if B.Survives(hops, 1) then Some(Put32(R.Key(s.id)) + reply) else None
  {
    KeyHasTopBit(s.id);
    AnswerIs(hops, tables, R.Key(s.id), s.request, reply);
  }

  lemma Accepted(s: R.Socket, reply: Bytes, c: R.Choice)
    requires Theory.Inv(s) && s.state == R.Active && R.Enabled(s, R.Arrive([]), c)
    ensures var r := R.In(s, [Put32(R.Key(s.id)) + reply], c);
            r.Ok? && r.socket.state == R.StoppingTimer && r.socket.reply == R.Whole(reply)
  {
    var header := Put32(R.Key(s.id));
    var ws := [header + reply];
    assert R.Enabled(s, R.Arrive(ws), c);
    Theory.ReplyMatchesRequest(s, R.Arrive(ws), c);
    assert Theory.Reaches(ws, 0, header) && (header + reply)[4..] == reply;
  }

  /** The answer to an earlier request, whose id is another one, leaves REQ waiting. */
  lemma StaleReplyIgnored(s: R.Socket, hops: seq<B.Hop>, tables: seq<map<nat, B.Entry>>, id: nat,
                          request: Bytes, reply: Bytes, c: R.Choice)
    requires Theory.Inv(s) && s.state == R.Active && R.Enabled(s, R.Arrive([]), c)
    requires B.HopsOk(hops) && hops != [] && B.StillThere(hops, tables)
    requires TOP_BIT <= id < MAX32 && id != R.Key(s.id)
    ensures var answer := Answer(hops, tables, Put32(id) + request, reply);
            answer.Some? ==>
              var r := R.In(s, [answer.value], c);
              r.Ok? && r.socket == s.(reply := R.Dead)
  {
    var wire := Put32(id) + reply;
    AnswerIs(hops, tables, id, request, reply);
    KeyHasTopBit(s.id);
    Get32Put32(id);
    Get32Put32(R.Key(s.id));
    Theory.AnswersExactly(s, wire);
    Theory.InSpec(s, [wire], c);
    assert wire[..4] == Put32(id);
  }
}
