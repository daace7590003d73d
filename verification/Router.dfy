/** The raw REP socket's table of pipes (protocols/reqrep/xrep.c) and the sockets around it, in place:
    keys, writable flags, the split of an arriving request, and REP's stored backtrace. */
module Router {
  import opened Wire
  import O = Options
  import opened Backtrace

  // ---------------------------------------------------------------- the table as a value

  datatype Router = Router(nextKey: nat, table: map<nat, Entry>)

  datatype Op = AddPipe(pipe: Pipe) | RmPipe(key: nat) | OutPipe(key: nat) | SendMsg(msg: Message, release: bool)

  datatype Outcome = Abort | Ok(router: Router)

  /** One call.  Adding a pipe under a key that is in use is the assertion in nn_hash_insert; `release`
      says whether nn_pipe_send returns NN_PIPE_RELEASE. */
  function Apply(r: Router, op: Op): Outcome {
    match op
    case AddPipe(p) =>
      var key := r.nextKey % TOP_BIT;
      if key in r.table then Abort
      else Ok(Router((r.nextKey + 1) % MAX32, r.table[key := Entry(p, false)]))
    case RmPipe(key) => Ok(r.(table := r.table - {key}))
    case OutPipe(key) => Ok(if key in r.table then r.(table := r.table[key := r.table[key].(out := true)]) else r)
    case SendMsg(m, release) => Ok(r.(table := AfterSend(r.table, m, release)))
  }

  function AfterSend(table: map<nat, Entry>, m: Message, release: bool): map<nat, Entry> {
    if XrepSend(table, m).Lost? || !release then table
    else
      var key := Get32(m.sphdr[..4]);
      table[key := table[key].(out := false)]
  }

  function Run(r: Router, ops: seq<Op>): Outcome {
    if ops == [] then Ok(r)
    else
      match Run(r, ops[..|ops| - 1])
      case Abort => Abort
      case Ok(r') => Apply(r', ops[|ops| - 1])
  }

  // ---------------------------------------------------------------- keys

  /** The key of the i-th pipe ever added, next_key having started at `start`. */
  function KeyOf(start: nat, i: nat): (k: nat)
    ensures k < TOP_BIT
  {
    (start + i) % TOP_BIT
  }

  /** The pipes by turn: the i-th pipe ever added, or None once it has been removed. */
  type Turns = seq<O.Option<Pipe>>

  /** Every pipe that is there is in the table under its key, no two have the same key, and there are no others. */
  ghost predicate KeysAre(table: map<nat, Entry>, start: nat, turns: Turns) {
    && (forall i :: 0 <= i < |turns| && turns[i].Some? ==>
          KeyOf(start, i) in table && table[KeyOf(start, i)].pipe == turns[i].value)
    && (forall k :: k in table ==> exists i :: 0 <= i < |turns| && turns[i].Some? && k == KeyOf(start, i))
    && (forall i, j :: 0 <= i < j < |turns| && turns[i].Some? && turns[j].Some? ==> KeyOf(start, i) != KeyOf(start, j))
  }

  /** The table holds exactly the pipes that have been added and not removed, each under the key of
      its turn. */
  ghost predicate Ledger(r: Router, start: nat, turns: Turns) {
    r.nextKey == (start + |turns|) % MAX32 && KeysAre(r.table, start, turns)
  }

  /** The 31 low bits of a counter that wraps at 2^32 are the counter modulo 2^31. */
  lemma KeyIs(start: nat, n: nat)
    ensures (start + n) % MAX32 % TOP_BIT == KeyOf(start, n)
  {
    var x := start + n;
    assert x == x / MAX32 * 2 * TOP_BIT + x % MAX32;
    assert x / TOP_BIT == x / MAX32 * 2 + x % MAX32 / TOP_BIT;
  }

  /** A pipe is still there whose turn was a multiple of 2^31 ago. */
  predicate TurnInTheWay(turns: Turns, i: nat) {
    i < |turns| && turns[i].Some? && (|turns| - i) % TOP_BIT == 0
  }

  /** The assertion in nn_hash_insert fails exactly when a pipe whose turn was a multiple of 2^31 ago
      is still there. */
  lemma AddAborts(r: Router, start: nat, turns: Turns, p: Pipe)
    requires Ledger(r, start, turns)
    ensures Apply(r, AddPipe(p)).Abort? <==> exists i: nat :: TurnInTheWay(turns, i)
  {
    var n := |turns|;
    KeyIs(start, n);
    forall i | 0 <= i < n ensures KeyOf(start, i) == KeyOf(start, n) <==> (n - i) % TOP_BIT == 0 {
      SameKey(start, i, n);
    }
    if i: nat :| TurnInTheWay(turns, i) {
      assert KeyOf(start, i) in r.table;
    }
    if KeyOf(start, n) in r.table {
      var i :| 0 <= i < n && turns[i].Some? && KeyOf(start, n) == KeyOf(start, i);
      assert TurnInTheWay(turns, i);
    }
  }

  lemma SameKey(start: nat, i: nat, n: nat)
    requires i <= n
    ensures KeyOf(start, i) == KeyOf(start, n) <==> (n - i) % TOP_BIT == 0
  {
    var a, b, d := start + i, start + n, n - i;
    if d % TOP_BIT == 0 {
      assert b == a + d / TOP_BIT * TOP_BIT;
      assert b / TOP_BIT == a / TOP_BIT + d / TOP_BIT;
    }
    if a % TOP_BIT == b % TOP_BIT {
      assert d == (b / TOP_BIT - a / TOP_BIT) * TOP_BIT;
    }
  }

  lemma AddKeepsLedger(r: Router, start: nat, turns: Turns, p: Pipe)
    requires Ledger(r, start, turns) && Apply(r, AddPipe(p)).Ok?
    ensures Ledger(Apply(r, AddPipe(p)).router, start, turns + [O.Some(p)])
  {
    var n := |turns|;
    KeyIs(start, n);
    Wraps(start + n);
    LedgerSnoc(r.table, start, turns, p);
    assert Apply(r, AddPipe(p)).router.table == r.table[KeyOf(start, n) := Entry(p, false)];
  }

  lemma LedgerSnoc(table: map<nat, Entry>, start: nat, turns: Turns, p: Pipe)
    requires KeysAre(table, start, turns) && KeyOf(start, |turns|) !in table
    ensures KeysAre(table[KeyOf(start, |turns|) := Entry(p, false)], start, turns + [O.Some(p)])
  {
    var table', turns' := table[KeyOf(start, |turns|) := Entry(p, false)], turns + [O.Some(p)];
    forall k | k in table' ensures exists i :: 0 <= i < |turns'| && turns'[i].Some? && k == KeyOf(start, i) {
      if k in table {
        var i :| 0 <= i < |turns| && turns[i].Some? && k == KeyOf(start, i);
        assert turns'[i].Some?;
      } else {
        assert turns'[|turns|].Some? && k == KeyOf(start, |turns|);
      }
    }
  }

  function Without(start: nat, turns: Turns, key: nat): (r: Turns)
    ensures |r| == |turns|
    ensures forall i :: 0 <= i < |turns| ==> r[i] == if KeyOf(start, i) == key then O.None else turns[i]
  {
    seq(|turns|, i requires 0 <= i < |turns| => if KeyOf(start, i) == key then O.None else turns[i])
  }

  lemma RmKeepsLedger(r: Router, start: nat, turns: Turns, key: nat)
    requires Ledger(r, start, turns)
    ensures Ledger(Apply(r, RmPipe(key)).router, start, Without(start, turns, key))
  {
    var r', turns' := Apply(r, RmPipe(key)).router, Without(start, turns, key);
    forall k | k in r'.table ensures exists i :: 0 <= i < |turns'| && turns'[i].Some? && k == KeyOf(start, i) {
      var i :| 0 <= i < |turns| && turns[i].Some? && k == KeyOf(start, i);
      assert turns'[i].Some?;
    }
  }

  /** A call that changes flags only. */
  lemma FlagsKeepLedger(r: Router, start: nat, turns: Turns, op: Op)
    requires Ledger(r, start, turns) && (op.OutPipe? || op.SendMsg?)
    ensures Ledger(Apply(r, op).router, start, turns)
  {
    var table' := Apply(r, op).router.table;
    assert forall k :: k in table' <==> k in r.table;
    assert forall k :: k in table' ==> table'[k].pipe == r.table[k].pipe;
  }

  /** What the calls do to the ledger. */
  function TurnsAfter(start: nat, turns: Turns, ops: seq<Op>): Turns {
    if ops == [] then turns
    else
      var before := TurnsAfter(start, turns, ops[..|ops| - 1]);
      match ops[|ops| - 1]
      case AddPipe(p) => before + [O.Some(p)]
      case RmPipe(key) => Without(start, before, key)
      case _ => before
  }

  lemma {:induction false} RunLedger(r: Router, start: nat, turns: Turns, ops: seq<Op>)
    requires Ledger(r, start, turns) && Run(r, ops).Ok?
    ensures Ledger(Run(r, ops).router, start, TurnsAfter(start, turns, ops))
  {
    if ops != [] {
      var last := |ops| - 1;
      RunLedger(r, start, turns, ops[..last]);
      var r', turns' := Run(r, ops[..last]).router, TurnsAfter(start, turns, ops[..last]);
      match ops[last]
      case AddPipe(p) => AddKeepsLedger(r', start, turns', p);
      case RmPipe(key) => RmKeepsLedger(r', start, turns', key);
      case _ => FlagsKeepLedger(r', start, turns', ops[last]);
    }
  }

  // ---------------------------------------------------------------- the table from the calls alone

  /** A raw REP socket as nn_xrep_init leaves it: next_key is random. */
  function Empty(start: nat): Router { Router(start, map[]) }

  /** How many pipes have been added. */
  function Adds(ops: seq<Op>): nat {
    if ops == [] then 0 else Adds(ops[..|ops| - 1]) + if ops[|ops| - 1].AddPipe? then 1 else 0
  }

  /** The key of the pipe that call j adds. */
  function KeyAt(start: nat, ops: seq<Op>, j: nat): nat
    requires j <= |ops|
  {
    KeyOf(start, Adds(ops[..j]))
  }

  /** Call j adds a pipe, and no later call removes it. */
  predicate Stays(start: nat, ops: seq<Op>, j: nat) {
    j < |ops| && ops[j].AddPipe? && RmPipe(KeyAt(start, ops, j)) !in ops[j + 1..]
  }

  lemma {:induction false} TurnsLength(start: nat, ops: seq<Op>)
    ensures |TurnsAfter(start, [], ops)| == Adds(ops)
  {
    if ops != [] { TurnsLength(start, ops[..|ops| - 1]); }
  }

  /** The entry of the pipe that call j adds. */
  lemma {:induction false} TurnOfCall(start: nat, ops: seq<Op>, j: nat)
    requires j < |ops| && ops[j].AddPipe?
    ensures var turns, i := TurnsAfter(start, [], ops), Adds(ops[..j]);
            i < |turns| && turns[i] == if Stays(start, ops, j) then O.Some(ops[j].pipe) else O.None
  {
    var last := |ops| - 1;
    var before := ops[..last];
    TurnsLength(start, before);
    if j == last {
      assert ops[j + 1..] == [];
    } else {
      TurnOfCall(start, before, j);
      assert before[..j] == ops[..j] && before[j] == ops[j];
      assert ops[j + 1..] == before[j + 1..] + [ops[last]];
    }
  }

  /** The call that added the i-th pipe. */
  lemma {:induction false} CallOfTurn(ops: seq<Op>, i: nat) returns (j: nat)
    requires i < Adds(ops)
    ensures j < |ops| && ops[j].AddPipe? && Adds(ops[..j]) == i
  {
    var last := |ops| - 1;
    var before := ops[..last];
    if i == Adds(before) {
      j := last;
    } else {
      j := CallOfTurn(before, i);
      assert before[..j] == ops[..j];
    }
  }

  lemma EmptyLedger(start: nat)
    requires start < MAX32
    ensures Ledger(Empty(start), start, [])
  {
  }

  /** After any run the table holds exactly the pipes that were added and not removed since, each under the 31
      low bits of start and the number of pipes added before it. */
  lemma TableExactly(start: nat, ops: seq<Op>, k: nat)
    requires start < MAX32 && Run(Empty(start), ops).Ok?
    ensures var table := Run(Empty(start), ops).router.table;
            && (k in table <==> exists j: nat :: Stays(start, ops, j) && k == KeyAt(start, ops, j))
            && forall j: nat :: Stays(start, ops, j) && k == KeyAt(start, ops, j) ==> table[k].pipe == ops[j].pipe
  {
    var table, turns := Run(Empty(start), ops).router.table, TurnsAfter(start, [], ops);
    EmptyLedger(start);
    RunLedger(Empty(start), start, [], ops);
    TurnsLength(start, ops);
    forall j: nat | Stays(start, ops, j) && k == KeyAt(start, ops, j)
      ensures k in table && table[k].pipe == ops[j].pipe
    {
      TurnOfCall(start, ops, j);
      assert turns[Adds(ops[..j])].Some?;
    }
    if k in table {
      var i :| 0 <= i < |turns| && turns[i].Some? && k == KeyOf(start, i);
      var j := CallOfTurn(ops, i);
      TurnOfCall(start, ops, j);
      assert Stays(start, ops, j);
    }
  }

  /** Call j added a pipe that is still there, a multiple of 2^31 turns ago. */
  predicate InTheWay(start: nat, ops: seq<Op>, j: nat) {
    Stays(start, ops, j) && (Adds(ops) - Adds(ops[..j])) % TOP_BIT == 0
  }

  lemma CallInTheWay(start: nat, ops: seq<Op>, turns: Turns, i: nat) returns (j: nat)
    requires turns == TurnsAfter(start, [], ops) && TurnInTheWay(turns, i)
    ensures InTheWay(start, ops, j)
  {
    TurnsLength(start, ops);
    j := CallOfTurn(ops, i);
    TurnOfCall(start, ops, j);
  }

  lemma ItsTurn(start: nat, ops: seq<Op>, turns: Turns, j: nat) returns (i: nat)
    requires turns == TurnsAfter(start, [], ops) && InTheWay(start, ops, j)
    ensures TurnInTheWay(turns, i)
  {
    TurnsLength(start, ops);
    TurnOfCall(start, ops, j);
    i := Adds(ops[..j]);
  }

  lemma InTheWayByTurn(start: nat, ops: seq<Op>, turns: Turns)
    requires turns == TurnsAfter(start, [], ops)
    ensures (exists i: nat :: TurnInTheWay(turns, i)) <==> exists j: nat :: InTheWay(start, ops, j)
  {
    if i: nat :| TurnInTheWay(turns, i) { var _ := CallInTheWay(start, ops, turns, i); }
    if j: nat :| InTheWay(start, ops, j) { var _ := ItsTurn(start, ops, turns, j); }
  }

  lemma LedgerAfter(start: nat, ops: seq<Op>) returns (r: Router, turns: Turns)
    requires start < MAX32 && Run(Empty(start), ops).Ok?
    ensures Run(Empty(start), ops) == Ok(r) && turns == TurnsAfter(start, [], ops) && Ledger(r, start, turns)
  {
    EmptyLedger(start);
    RunLedger(Empty(start), start, [], ops);
    r, turns := Run(Empty(start), ops).router, TurnsAfter(start, [], ops);
  }

  /** After any run the next pipe fails the assertion in nn_hash_insert exactly when some pipe that was added a
      multiple of 2^31 turns ago has not been removed. */
  lemma AddAbortsAfter(start: nat, ops: seq<Op>, p: Pipe)
    requires start < MAX32 && Run(Empty(start), ops).Ok?
    ensures Apply(Run(Empty(start), ops).router, AddPipe(p)).Abort? <==> exists j: nat :: InTheWay(start, ops, j)
  {
    var r, turns := LedgerAfter(start, ops);
    AddAborts(r, start, turns, p);
    InTheWayByTurn(start, ops, turns);
  }

  /** One pipe comes and stays; then others come and go, one at a time, until n have been added. */
  function Churn(start: nat, p: Pipe, q: Pipe, n: nat): seq<Op>
    requires n > 0
  {
    if n == 1 then [AddPipe(p)] else Churn(start, p, q, n - 1) + [AddPipe(q)] + [RmPipe(KeyOf(start, n - 1))]
  }

  lemma RunOne(r: Router, ops: seq<Op>, op: Op)
    requires Run(r, ops).Ok?
    ensures Run(r, ops + [op]) == Apply(Run(r, ops).router, op)
  {
    assert (ops + [op])[..|ops + [op]| - 1] == ops;
  }

  lemma ChurnTurn(start: nat, p: Pipe, q: Pipe, n: nat)
    requires start < MAX32 && 0 < n < TOP_BIT
    ensures var r := Router((start + n) % MAX32, map[KeyOf(start, 0) := Entry(p, false)]);
            var r' := Router((start + n + 1) % MAX32, r.table[KeyOf(start, n) := Entry(q, false)]);
            && Apply(r, AddPipe(q)) == Ok(r')
            && Apply(r', RmPipe(KeyOf(start, n))) == Ok(Router((start + n + 1) % MAX32, r.table))
  {
    KeyIs(start, n);
    Wraps(start + n);
    SameKey(start, 0, n);
    var table: map<nat, Entry> := map[KeyOf(start, 0) := Entry(p, false)];
    assert table[KeyOf(start, n) := Entry(q, false)] - {KeyOf(start, n)} == table;
  }

  lemma {:induction false} ChurnRuns(start: nat, p: Pipe, q: Pipe, n: nat)
    requires start < MAX32 && 0 < n <= TOP_BIT
    ensures Run(Empty(start), Churn(start, p, q, n))
         == Ok(Router((start + n) % MAX32, map[KeyOf(start, 0) := Entry(p, false)]))
  {
    if n == 1 {
      RunOne(Empty(start), [], AddPipe(p));
      KeyIs(start, 0);
      assert [] + [AddPipe(p)] == [AddPipe(p)];
    } else {
      ChurnRuns(start, p, q, n - 1);
      ChurnTurn(start, p, q, n - 1);
      RunOne(Empty(start), Churn(start, p, q, n - 1), AddPipe(q));
      RunOne(Empty(start), Churn(start, p, q, n - 1) + [AddPipe(q)], RmPipe(KeyOf(start, n - 1)));
    }
  }

  /** It can come to that with two pipes at a time: one stays while the 2^31 - 1 after it come and go. */
  lemma KeysRunOut(start: nat, p: Pipe, q: Pipe)
    requires start < MAX32
    ensures Run(Empty(start), Churn(start, p, q, TOP_BIT)).Ok?
    ensures Apply(Run(Empty(start), Churn(start, p, q, TOP_BIT)).router, AddPipe(q)).Abort?
  {
    var n := TOP_BIT;
    ChurnRuns(start, p, q, n);
    KeyIs(start, n);
    SameKey(start, 0, n);
  }

  lemma Wraps(x: nat)
    ensures (x % MAX32 + 1) % MAX32 == (x + 1) % MAX32
  {
  }

  /** Whatever happens to other pipes, a pipe stays under its key until it is removed: so a reply to a
      key that is in the table goes to the pipe the request came from or to none. */
  lemma {:induction false} PipeStays(r: Router, ops: seq<Op>, key: nat)
    requires key in r.table && RmPipe(key) !in ops && Run(r, ops).Ok?
    ensures key in Run(r, ops).router.table && Run(r, ops).router.table[key].pipe == r.table[key].pipe
  {
    if ops != [] {
      assert ops[|ops| - 1] in ops;
      PipeStays(r, ops[..|ops| - 1], key);
    }
  }

  /** The reply's way back, over whatever happens at the sockets in the meantime: when each of them knew the
      pipe of its hop under its key, and the pipe has not been removed since, the routing pipes are all there
      exactly when each of them is writable as the reply passes. */
  lemma RoutesHold(hops: seq<Hop>, before: seq<Router>, ops: seq<seq<Op>>, tables: seq<map<nat, Entry>>)
    requires |before| == |ops| == |tables| == |hops|
    requires forall i :: 0 <= i < |hops| ==>
               && hops[i].key in before[i].table && before[i].table[hops[i].key].pipe == hops[i].pipe
               && RmPipe(hops[i].key) !in ops[i]
               && Run(before[i], ops[i]).Ok? && tables[i] == Run(before[i], ops[i]).router.table
    ensures forall i :: 0 <= i < |hops| ==> hops[i].key in tables[i]
    ensures StillThere(hops, tables) <==> forall i :: 0 <= i < |hops| ==> tables[i][hops[i].key].out
  {
    forall i | 0 <= i < |hops|
      ensures hops[i].key in tables[i] && tables[i][hops[i].key].pipe == hops[i].pipe
    {
      PipeStays(before[i], ops[i], hops[i].key);
    }
  }

  /** After a release, a pipe gets no message until NN_PIPE_OUT says that it is writable again. */
  lemma SilentUntilOut(r: Router, ops: seq<Op>, key: nat, m: Message)
    requires key in r.table && !r.table[key].out && RmPipe(key) !in ops && OutPipe(key) !in ops
    requires |m.sphdr| >= 4 && Get32(m.sphdr[..4]) == key && Run(r, ops).Ok?
    ensures XrepSend(Run(r, ops).router.table, m).Lost?
  {
    StaysSilent(r, ops, key);
  }

  lemma {:induction false} StaysSilent(r: Router, ops: seq<Op>, key: nat)
    requires key in r.table && !r.table[key].out && RmPipe(key) !in ops && OutPipe(key) !in ops && Run(r, ops).Ok?
    ensures key in Run(r, ops).router.table && !Run(r, ops).router.table[key].out
  {
    if ops != [] {
      assert ops[|ops| - 1] in ops;
      StaysSilent(r, ops[..|ops| - 1], key);
    }
  }

  // ---------------------------------------------------------------- struct nn_xrep, in place

  class XrepData {
    const pipe: Pipe
    const key: nat
    var out: bool

    constructor (pipe: Pipe, key: nat)
      ensures this.pipe == pipe && this.key == key && !out
    {
      this.pipe, this.key, out := pipe, key, false;
    }
  }

  class Xrep {
    var nextKey: nat
    var outpipes: map<nat, XrepData>

    ghost predicate Valid()
      reads this
    {
      nextKey < MAX32 && forall k :: k in outpipes ==> outpipes[k].key == k < TOP_BIT
    }

    ghost function Value(): Router
      reads this, outpipes.Values
    {
      Router(nextKey, map k | k in outpipes :: Entry(outpipes[k].pipe, outpipes[k].out))
    }

    /** nn_xrep_init; the key to start with is random. */
    constructor (random: nat)
      requires random < MAX32
      ensures Valid() && Value() == Router(random, map[])
    {
      nextKey, outpipes := random, map[];
    }

    /** nn_xrep_add. */
    method Add(pipe: Pipe) returns (data: XrepData)
      requires Valid() && Apply(Value(), AddPipe(pipe)).Ok?
      modifies this
      ensures Valid() && fresh(data) && data.pipe == pipe && outpipes == old(outpipes)[data.key := data]
      ensures Ok(Value()) == Apply(old(Value()), AddPipe(pipe))
    {
      data := new XrepData(pipe, nextKey % TOP_BIT);
      outpipes := outpipes[data.key := data];
      nextKey := if nextKey + 1 == MAX32 then 0 else nextKey + 1;
    }

    /** nn_xrep_rm. */
    method Rm(data: XrepData)
      requires Valid() && data in outpipes.Values
      modifies this
      ensures Valid() && Ok(Value()) == Apply(old(Value()), RmPipe(data.key))
    {
      outpipes := outpipes - {data.key};
    }

    /** nn_xrep_out. */
    method Out(data: XrepData)
      requires Valid() && data in outpipes.Values
      modifies data
      ensures Valid() && Ok(Value()) == Apply(old(Value()), OutPipe(data.key))
    {
      data.out := true;
    }

    /** nn_xrep_send.  The header loses its first word even when the message goes nowhere. */
    method Send(msg: Message, release: bool) returns (r: Routed)
      requires Valid()
      modifies outpipes.Values
      ensures Valid() && r == XrepSend(old(Value()).table, msg)
      ensures Ok(Value()) == Apply(old(Value()), SendMsg(msg, release))
    {
      if |msg.sphdr| < 4 {
        return Lost;
      }
      var key := Get32(msg.sphdr[..4]);
      var sphdr := msg.sphdr[4..];
      if key !in outpipes || !outpipes[key].out {
        return Lost;
      }
      var data := outpipes[key];
      r := Sent(data.pipe, Message(sphdr, msg.body));
      if release {
        data.out := false;
      }
    }

    /** nn_xrep_recv, for a message that the fair queue took from the pipe with this data. */
    method Recv(data: XrepData, maxttl: int, wire: Bytes) returns (r: Received)
      requires Valid() && data in outpipes.Values
      ensures r == XrepRecv(data.key, maxttl, wire)
    {
      var n := Bottom(wire);
      if n == 0 || n > maxttl {
        return Dropped;
      }
      var sphdr := wire[..4 * n];
      r := Got(Message(Put32(data.key) + sphdr, wire[4 * n..]));
    }
  }

  function Plus(c: Count, i: nat): Count { if c.None? then None else Words(c.n + i) }

  /** One word of the stack. */
  lemma CountStep(data: Bytes, i: nat)
    requires i + 4 <= |data|
    ensures CountWords(data[i..]) ==
            if Get32(data[i..i + 4]) >= TOP_BIT then Words(1) else Plus(CountWords(data[i + 4..]), 1)
  {
    var rest := data[i..];
    assert rest[..4] == data[i..i + 4] && rest[4..] == data[i + 4..];
  }

  /** Lines 216-233 of xrep.c: the number of words down to the bottom of the stack, 0 if there is no
      bottom. */
  method Bottom(data: Bytes) returns (n: nat)
    ensures CountWords(data) == if n == 0 then None else Words(n)
  {
    var i := 0;
    while true
      invariant 4 * i <= |data|
      invariant CountWords(data) == Plus(CountWords(data[4 * i..]), i)
      decreases |data| - 4 * i
    {
      if (i + 1) * 4 > |data| {
        return 0;
      }
      CountStep(data, 4 * i);
      if Get32(data[4 * i..4 * i + 4]) >= TOP_BIT {
        break;
      }
      i := i + 1;
    }
    return i + 1;
  }

  /** struct nn_rep. */
  class Rep {
    const xrep: Xrep
    var inprogress: bool
    var backtrace: Bytes

    ghost function State(): RepState
      reads this
    {
      if inprogress then InProgress(backtrace) else Waiting
    }

    constructor (xrep: Xrep)
      ensures this.xrep == xrep && State() == Waiting
    {
      this.xrep, inprogress, backtrace := xrep, false, [];
    }

    /** nn_rep_send.  A reply must not have a header of its own (line 102). */
    method Send(m: Message, release: bool) returns (r: RepSent)
      requires xrep.Valid() && !RepSend(State(), xrep.Value().table, m).Aborts?
      modifies this, xrep.outpipes.Values
      ensures xrep.Valid() && State() == Waiting
      ensures r == RepSend(old(State()), old(xrep.Value()).table, m)
      ensures Ok(xrep.Value()) == if r.Efsm? then Ok(old(xrep.Value()))
                                  else Apply(old(xrep.Value()), SendMsg(Message(old(backtrace), m.body), release))
    {
      if !inprogress {
        return Efsm;
      }
      assert m.sphdr == [];
      var sphdr := backtrace;
      backtrace, inprogress := [], false;
      var sent := xrep.Send(Message(sphdr, m.body), release);
      r := Passed(sent);
    }

    /** nn_rep_recv. */
    method Recv(data: XrepData, maxttl: int, wire: Bytes) returns (r: Received)
      requires xrep.Valid() && data in xrep.outpipes.Values
      modifies this
      ensures (State(), r) == RepRecv(XrepRecv(data.key, maxttl, wire))
    {
      if inprogress {
        backtrace, inprogress := [], false;
      }
      var got := xrep.Recv(data, maxttl, wire);
      if got.Dropped? {
        return Dropped;
      }
      backtrace := got.msg.sphdr;
      inprogress := true;
      r := Got(Message([], got.msg.body));
    }
  }
}
