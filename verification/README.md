# nanomsg core, modelled in Dafny

The Android library wraps a C copy of nanomsg. This project models the parts of that copy that
carry its promises and proves what they promise. Code that works by changing things step by step is
modelled as classes and methods that change fields, arrays and node graphs; each such method is
proved against a function on values, and the promises are proved about those functions, over all
inputs and over all runs. Code made of expressions is modelled as functions.

- `TrieModel`, `TrieKids`, `TrieTheory`, `TrieRuns`, `TrieMatch`: the subscription trie as a value,
  its meaning (how often each string is subscribed), and what subscribe, unsubscribe and match do to
  it. `TrieFailures`: inputs on which they do not do what they promise. `TrieShape`, `TrieNodes`,
  `TrieOpen`, `TriePrune`, `TrieHeap`: the same operations on a graph of nodes that are split, merged,
  shifted, converted and freed in place. `Xsub`: the receive loop of SUB on top of it.
- `Inproc`, `InprocTheory`, `Sinproc`, `MsgQueue`: an inproc connection as two sessions with events
  in flight, back-pressure and the chunked queue. `XreqPipes`: a socket with any number of such
  connections, and the fair queue and load balancer that list the ones it can use; `XreqClosing`: the
  same while the socket is being closed.
- `TimerModel`, `Req`, `ReqTheory`, `ReqSocket`, `Surveyor`: the REQ and SURVEYOR machines in step
  with their timer. `ReqPipes`: REQ over the pipes of `XreqPipes`.
- `Backtrace`, `Router`, `EndToEnd`: requests and replies through any chain of devices, the tables of
  pipe keys that route them, and REQ and REP at the two ends.
- `SockModel`, `Sock`, `SockTable`: holds, endpoints, close, and the table of sockets.
- `Options`, `Seqs`, `List`, `PrioModel`, `PrioList`, `Hash`, `Base64`, `Tcp`, `Wire`: the data structures and
  encodings below.

Where the code departs from what it is meant to do, the model does what the code does, and a lemma
says exactly when the two agree:

- a node that is converted between sparse and dense loses its own reference count (`trie.c:382`,
  `trie.c:607`), and a reference count wraps at 2^32 (`trie.c:433`): `SubscribeExact`,
  `UnsubscribeExact`, `SubscribeWF`;
- match moves to the next byte when no data is left (`trie.c:464-468`): `MatchExact`;
- unsubscribe of a string that is not subscribed can dereference NULL, miscount or overrun a dense
  node, or take another string away (`trie.c:488-517`): `UnsubscribeFault`, `UnsubscribeAbsent`; and
  it reports a removal that did not happen wherever the walk ends below the root, although `trie.h`
  promises 1 for a removal only: `AbsentCode`;
- a late reply, a stale one and one of less than four bytes included, overwrites a stored one
  (`req.c:155`, `xreq.c:189-193`): `StoredReplySurvives`, `HandsOver`;
- a negative resend interval or survey deadline is accepted, and fails an assertion when the timer is
  started (`timer.c:79`); nn_sendmsg accepts an SP header on any socket (`global.c:804-823`), and REQ,
  SURVEYOR and REP assert that there is none (`req.c:240`, `surveyor.c:203`, `rep.c:102`):
  `AbortsExactly`, `Surveyor.InStep`, and for REP the branch of `Backtrace.RepSend`;
- the keys of pipes repeat after 2^31 pipes (`xrep.c:103`): `AddAbortsAfter`, `KeysRunOut`;
- round-robin is fair without activations only; with activations two pipes can starve a third
  (`priolist.c:113-116`): `Fair`, `Starves`, and `ReturnedExactly` for when a pipe gets its turn;
- an endpoint added by a call that overlaps nn_close makes the shutdown fail an assertion
  (`sock.c:495-525`): `AddKeeps`, `LateEpAborts`, `LateEpStrands`.

What the model assumes about its surroundings: a critical section of a socket is one step; events
that one inproc session raises to its peer arrive in the order in which they were raised, although
`ctx.c:76-93` hands them over outside the lock; both inproc sessions start ACTIVE; the worker runs
its tasks in order and fires an armed timer once, within enter and leave (its source is not part of
this model); nn_usock_recv completes with exactly the bytes asked for; which ready pipe the load
balancer picks for REQ, and whether a pipe answers with NN_PIPE_RELEASE, are parameters of `Req`
(`ReqPipes` takes both from the pipes).

## Model

| member | source | states |
|---|---|---|
| TrieHeap.Trie.constructor | VNanoMsg/src/main/cpp/src/protocols/pubsub/trie.c:52-55 | an initialised trie has a NULL root and holds nothing |
| TrieHeap.Trie.Subscribe | VNanoMsg/src/main/cpp/src/protocols/pubsub/trie.c:236-437 | in place on the node graph, for any data: the new graph holds the specified trie, shares no node, the count of data rises by one in 32 bits, every other count stays except that of a converted node, the result is 1 exactly when the count was 0, and the trie is valid again exactly unless the count of a childless node wraps |
| TrieHeap.Trie.Locate | VNanoMsg/src/main/cpp/src/protocols/pubsub/trie.c:252-280 | step 1: the slot where the walk ends, with the rest of the trie around it unchanged and still waiting for the same subscription |
| TrieHeap.Trie.Look | VNanoMsg/src/main/cpp/src/protocols/pubsub/trie.c:258-279 | one turn of step 1: whether the walk goes on below a node, and through which slot |
| TrieHeap.Trie.Step2 | VNanoMsg/src/main/cpp/src/protocols/pubsub/trie.c:282-301 | step 2: splitting a prefix and going on to step 3 gives exactly the extended split trie |
| TrieHeap.Trie.MakeRoom | VNanoMsg/src/main/cpp/src/protocols/pubsub/trie.c:303-400 | step 3: in each of the three layouts the node gets an empty slot for the character, and everything else it holds is kept |
| TrieHeap.Trie.Step4 | VNanoMsg/src/main/cpp/src/protocols/pubsub/trie.c:402-425 | step 4: the chain of new nodes holds exactly the rest of the data |
| TrieHeap.Trie.Step5 | VNanoMsg/src/main/cpp/src/protocols/pubsub/trie.c:427-436 | step 5: one more reference in 32 bits, 1 exactly for the first |
| TrieHeap.Trie.Unsubscribe | VNanoMsg/src/main/cpp/src/protocols/pubsub/trie.c:472-475 | in place, wherever the source returns: the new graph holds the specified trie, the return code is the specified one, each count changes as specified, and the trie is valid again exactly when the data do not end at a hole of a dense node |
| TrieHeap.Trie.Match | VNanoMsg/src/main/cpp/src/protocols/pubsub/trie.c:439-470 | the loop over nodes gives the verdict of the specified walk over raw memory, reads past the data included |
| TrieHeap.CheckMemory | VNanoMsg/src/main/cpp/src/protocols/pubsub/trie.c:156-168 | the prefix comparison over raw memory finds full match, mismatch, or the read past the end |
| TrieNodes.CheckPrefix | VNanoMsg/src/main/cpp/src/protocols/pubsub/trie.c:156-168 | the loop computes the length of the longest common prefix, for all lengths |
| TrieNodes.Next | VNanoMsg/src/main/cpp/src/protocols/pubsub/trie.c:170-201 | the slot for a character in a sparse or dense node, none if there is none |
| TrieNodes.CompactNode | VNanoMsg/src/main/cpp/src/protocols/pubsub/trie.c:203-234 | in place: merging with the only child holds the compacted trie and no node twice |
| TrieOpen.SplitNode | VNanoMsg/src/main/cpp/src/protocols/pubsub/trie.c:288-300 | the two nodes after a split hold the split trie |
| TrieOpen.OpenSparseNode | VNanoMsg/src/main/cpp/src/protocols/pubsub/trie.c:310-318 | one more character in a sparse node: an open slot, everything else kept |
| TrieOpen.WidenNode | VNanoMsg/src/main/cpp/src/protocols/pubsub/trie.c:326-352 | the child array of a dense node is shifted or extended so that it covers the character |
| TrieOpen.OpenDenseNode | VNanoMsg/src/main/cpp/src/protocols/pubsub/trie.c:325-355 | a dense node with its range widened: an open slot, everything else kept |
| TrieOpen.Range | VNanoMsg/src/main/cpp/src/protocols/pubsub/trie.c:362-372 | the loop finds the smallest range that covers all children and the new character |
| TrieOpen.Fill | VNanoMsg/src/main/cpp/src/protocols/pubsub/trie.c:388-393 | the loop puts every child of the old node at its place in the dense array |
| TrieOpen.OpenFullNode | VNanoMsg/src/main/cpp/src/protocols/pubsub/trie.c:357-399 | a new dense node in place of a full sparse one holds the same children; its refcount is 0 |
| TriePrune.RemoveChild | VNanoMsg/src/main/cpp/src/protocols/pubsub/trie.c:528-541 | the gap of a removed child is closed in both arrays |
| TriePrune.TrimNode | VNanoMsg/src/main/cpp/src/protocols/pubsub/trie.c:562-600 | a dense node that loses a child keeps the slots between the outermost remaining children |
| TriePrune.ToSparse | VNanoMsg/src/main/cpp/src/protocols/pubsub/trie.c:602-625 | a small dense node is replaced by a sparse node with the same children in order; its refcount is 0 |
| TriePrune.PackSlots | VNanoMsg/src/main/cpp/src/protocols/pubsub/trie.c:611-621 | the loop collects characters and pointers of the occupied slots in order |
| TriePrune.ReleaseNode | VNanoMsg/src/main/cpp/src/protocols/pubsub/trie.c:627-654 | label found: one reference less, and the node freed or merged as specified |
| TriePrune.UnsubscribeNode | VNanoMsg/src/main/cpp/src/protocols/pubsub/trie.c:477-655 | the whole recursion, with pointers written on the way back, holds the specified trie and returns the specified code |
| TrieTheory.CompactCount | VNanoMsg/src/main/cpp/src/protocols/pubsub/trie.c:203-234 | compaction changes no count |
| TrieTheory.SplitCount | VNanoMsg/src/main/cpp/src/protocols/pubsub/trie.c:286-301 | splitting a prefix and compacting its lower part changes no count |
| TrieTheory.ExtendCount | VNanoMsg/src/main/cpp/src/protocols/pubsub/trie.c:303-425 | steps 3 and 4 give the new string count 1 and change no other count but that of a node converted at line 382 |
| TrieTheory.SubscribeWF | VNanoMsg/src/main/cpp/src/protocols/pubsub/trie.c:236-437 | the structure invariant (prefixes of at most 10 bytes, distinct characters, non-NULL children, dense nodes with an exact nbr of at least 9 and both end slots occupied, no leaf without a subscription) survives a subscribe if and only if it is not the 2^32nd of a string whose node has no children |
| TrieTheory.SubscribeCount | VNanoMsg/src/main/cpp/src/protocols/pubsub/trie.c:236-437 | one more of the argument, in 32 bits; every other count alone, except a full sparse node on the path that is converted |
| TrieTheory.SubscribeExact | VNanoMsg/src/main/cpp/src/protocols/pubsub/trie.c:357-399 | subscribe adds exactly one of its argument and changes nothing else if and only if it does not convert a subscribed node and the count does not wrap |
| TrieTheory.LostStringConverts | VNanoMsg/src/main/cpp/src/protocols/pubsub/trie.c:382 | when the guard holds, there is a string with a positive count that the conversion drops |
| TrieTheory.PruneCount | VNanoMsg/src/main/cpp/src/protocols/pubsub/trie.c:519-625 | pruning drops the strings through the removed child, and the node's own count when a dense node turns sparse, and nothing else |
| TrieTheory.UnsubscribeFault | VNanoMsg/src/main/cpp/src/protocols/pubsub/trie.c:488-505 | each failure exactly: NULL is dereferenced iff the walk comes to a NULL pointer with data left, and nine children go into eight places (assert at 621) iff the data end at a hole in a dense node with nine children |
| TrieTheory.UnsubscribeWF | VNanoMsg/src/main/cpp/src/protocols/pubsub/trie.c:477-655 | an unsubscribe that returns keeps the structure invariant if and only if the data do not end at a hole of a dense node |
| TrieTheory.UnsubscribeCount | VNanoMsg/src/main/cpp/src/protocols/pubsub/trie.c:477-655 | for every call that returns: the one string that is taken away loses one; every other count is kept through pruning, compaction and trimming, except at the reset of line 607 |
| TrieTheory.NodeHasSubscription | VNanoMsg/src/main/cpp/src/protocols/pubsub/trie.c:477-655 | no leaf without a subscription: below every node of a well-formed trie there is a subscribed string |
| TrieRuns.UnsubscribeSubscribed | VNanoMsg/src/main/cpp/src/protocols/pubsub/trie.c:477-655 | for a subscribed string the call never meets NULL, takes exactly that string, and returns 1 exactly when it was the last |
| TrieRuns.UnsubscribeExact | VNanoMsg/src/main/cpp/src/protocols/pubsub/trie.c:562-607 | unsubscribing a subscribed string removes exactly one of it and nothing else if and only if the path has no subscribed dense node with nine children whose child on the path holds this one subscription only |
| TrieRuns.Vanishes | VNanoMsg/src/main/cpp/src/protocols/pubsub/trie.c:513-517 | a subtree vanishes with a subscription if and only if it holds no other: the caller can tell before the call what the recursion will report |
| TrieRuns.UnsubscribeAbsent | VNanoMsg/src/main/cpp/src/protocols/pubsub/trie.c:488-517 | for a string that is not subscribed the call returns, leaves a well-formed trie and changes no count if and only if the walk comes to no NULL pointer and ends neither at a hole nor on the edge to a subscribed node |
| TrieRuns.UnsubscribeGap | VNanoMsg/src/main/cpp/src/protocols/pubsub/trie.c:510-600 | at a hole in a dense node with more than nine children the call returns 1 and changes no count, but the node counts one child too few |
| TrieRuns.AbsentCode | VNanoMsg/src/main/cpp/src/protocols/pubsub/trie.c:499-517 | the return code for a string that is not subscribed and not taken for another: -EINVAL where the walk ends at the root, 1, as for a removal, where it ends at a lower node or hole, 0 where it ends at no node |
| TrieRuns.NullIffEmpty | VNanoMsg/src/main/cpp/src/protocols/pubsub/trie.c:627-654 | the root is NULL exactly when nothing is subscribed |
| TrieRuns.StepRefines | VNanoMsg/src/main/cpp/src/protocols/pubsub/trie.c:236-655 | one operation of the trie, an unsubscribe of an absent string that does no harm included, is one operation on the multiset of subscriptions if and only if it resets no count and wraps none |
| TrieRuns.RunWF | VNanoMsg/src/main/cpp/src/protocols/pubsub/trie.c:236-655 | over every run of legal operations from a well-formed trie every trie is well-formed and every call returns |
| TrieRuns.RunRefines | VNanoMsg/src/main/cpp/src/protocols/pubsub/trie.c:236-655 | over any run without a reset or a wrap the trie is exactly the multiset of strings subscribed and not yet unsubscribed |
| TrieFailures.SubscribeLoses | VNanoMsg/src/main/cpp/src/protocols/pubsub/trie.c:382 | a well-formed trie and a string whose subscription takes another string away |
| TrieFailures.SubscribeWraps | VNanoMsg/src/main/cpp/src/protocols/pubsub/trie.c:433-436 | the 2^32nd subscription takes the others away and leaves a node that holds nothing |
| TrieFailures.UnsubscribeLoses | VNanoMsg/src/main/cpp/src/protocols/pubsub/trie.c:607 | a trie and a subscribed string whose unsubscription takes another string away |
| TrieFailures.UnsubscribeNull | VNanoMsg/src/main/cpp/src/protocols/pubsub/trie.c:488-492 | a trie and a string that make an unsubscribe dereference NULL |
| TrieFailures.UnsubscribeHole | VNanoMsg/src/main/cpp/src/protocols/pubsub/trie.c:505-621 | strings that end at a hole: with ten children the call spoils the node, with nine it overruns eight places |
| TrieFailures.UnsubscribeRobs | VNanoMsg/src/main/cpp/src/protocols/pubsub/trie.c:488-505 | a trie in which unsubscribing the empty string, which is not subscribed, takes a string away |
| TrieFailures.MatchMisled | VNanoMsg/src/main/cpp/src/protocols/pubsub/trie.c:464-468 | a trie, data, and bytes behind the data: without them the match reads past the end, with them it reports what is not subscribed |
| TrieMatch.MatchWithin | VNanoMsg/src/main/cpp/src/protocols/pubsub/trie.c:439-470 | away from the bare case, match answers whether some subscribed string is a prefix of the data, whatever lies behind the data |
| TrieMatch.BareStrays | VNanoMsg/src/main/cpp/src/protocols/pubsub/trie.c:464-468 | bare data make the walk read past the end |
| TrieMatch.BareMisled | VNanoMsg/src/main/cpp/src/protocols/pubsub/trie.c:464-468 | for every bare data there are bytes behind it that make match report a subscription that is not there |
| TrieMatch.MatchExact | VNanoMsg/src/main/cpp/src/protocols/pubsub/trie.c:439-470 | match agrees with the definition for all bytes behind the data if and only if the data is not bare |
| Xsub.ReceiveFirst | VNanoMsg/src/main/cpp/src/protocols/pubsub/xsub.c:160-184 | a receive that looks at no bare message hands over the first message that starts with a subscribed string, keeps what came after it, and says EAGAIN only after emptying the queue |
| Xsub.BareUnwanted | VNanoMsg/src/main/cpp/src/protocols/pubsub/xsub.c:160-184 | a bare message is never wanted, yet there are bytes behind it with which a receive hands it over |
| Xsub.DrainIsSelect | VNanoMsg/src/main/cpp/src/protocols/pubsub/xsub.c:160-184 | receiving until EAGAIN yields exactly the matching messages in arrival order |
| Xsub.SubscriptionTakesEffect | VNanoMsg/src/main/cpp/src/protocols/pubsub/xsub.c:186-202 | after a subscription every message that starts with the string is handed over |
| Xsub.RunExact | VNanoMsg/src/main/cpp/src/protocols/pubsub/xsub.c:160-202 | over any run of subscriptions, unsubscriptions (of strings that are subscribed, or whose removal does no harm), arrivals and receives in any order, every receive gets exactly what a multiset of subscriptions and the definition of a match would give it, provided no reset or wrap occurs and no receive looks at a bare message |
| Xsub.Xsub.Recv | VNanoMsg/src/main/cpp/src/protocols/pubsub/xsub.c:160-184 | the receive loop over the trie in place terminates and does what the specification function says |
| Wire.Get32Put32 | VNanoMsg/src/main/cpp/src/utils/wire.c:43-57 | nn_getl reads back what nn_putl wrote |
| Wire.Put32Get32 | VNanoMsg/src/main/cpp/src/utils/wire.c:43-57 | and the other way round, for all four bytes |
| Wire.Get64Put64 | VNanoMsg/src/main/cpp/src/utils/wire.c:59-81 | nn_getll reads back what nn_putll wrote |
| InprocTheory.SendKeeps | VNanoMsg/src/main/cpp/src/transports/inproc/sinproc.c:137-176 | a send that the load balancer allows cannot fail and keeps the invariant of the pair |
| InprocTheory.RecvKeeps | VNanoMsg/src/main/cpp/src/transports/inproc/sinproc.c:178-214 | a receive that the fair queue allows cannot fail and keeps the invariant, with or without a waiting message let in |
| InprocTheory.SentKeeps | VNanoMsg/src/main/cpp/src/transports/inproc/sinproc.c:421-449 | SENT: a message is let in or waits for room, no assertion fails |
| InprocTheory.ReceivedKeeps | VNanoMsg/src/main/cpp/src/transports/inproc/sinproc.c:451-455 | RECEIVED: the sender may send again |
| InprocTheory.DisconnectKeeps | VNanoMsg/src/main/cpp/src/transports/inproc/sinproc.c:457-467 | DISCONNECT on an active side, including one whose owner stops it at once |
| InprocTheory.StopKeeps | VNanoMsg/src/main/cpp/src/transports/inproc/sinproc.c:276-311 | a stop at any time |
| InprocTheory.ShutdownKeeps | VNanoMsg/src/main/cpp/src/transports/inproc/sinproc.c:216-311 | every event that can arrive while a side shuts down or is disconnected |
| InprocTheory.ActKeeps | VNanoMsg/src/main/cpp/src/transports/inproc/sinproc.c:137-495 | every step of either side keeps the invariant and fails no assertion |
| InprocTheory.RunKeeps | VNanoMsg/src/main/cpp/src/transports/inproc/sinproc.c:137-495 | the invariant holds in every state of every run |
| InprocTheory.NeverAborts | VNanoMsg/src/main/cpp/src/transports/inproc/sinproc.c:216-495 | in every reachable state whatever may happen next reaches no assertion failure and no unexpected-event branch |
| InprocTheory.Delivered | VNanoMsg/src/main/cpp/src/transports/inproc/sinproc.c:137-214 | exactly once and in order: sent is received, then queued, then the one pending message; received is always a prefix of sent |
| InprocTheory.NoLostWakeUp | VNanoMsg/src/main/cpp/src/core/pipe.c:101-120 | at both ends: an attached pipe is readable and IDLE exactly when its queue is non-empty, and a side that cannot write waits for an event in flight or a peer that can read |
| InprocTheory.StoppedForGood | VNanoMsg/src/main/cpp/src/transports/inproc/sinproc.c:290-310 | once STOPPED is reported nothing is in flight to the session and nothing will ever change it |
| InprocTheory.DisconnectCompletes | VNanoMsg/src/main/cpp/src/transports/inproc/sinproc.c:276-311 | when no event is in flight, no session that was told to stop is still waiting |
| XreqPipes.ReceiveKeeps | VNanoMsg/src/main/cpp/src/protocols/utils/fq.c:61-83 | nn_fq_recv takes the first message of a pipe that has one, no pipe of a better priority has one, and fair queue, load balancer and sessions are in step again |
| XreqPipes.TransmitKeeps | VNanoMsg/src/main/cpp/src/protocols/utils/lb.c:66-87 | the same for nn_lb_send |
| XreqPipes.AttachKeeps | VNanoMsg/src/main/cpp/src/core/pipe.c:75-92 | a new pipe is added to both lists, active in the load balancer only |
| XreqPipes.AtOwnKeeps | VNanoMsg/src/main/cpp/src/protocols/reqrep/xreq.c:111-147 | an event or a stop at a session: what it raises or removes leaves both lists in step |
| XreqPipes.StepKeeps | VNanoMsg/src/main/cpp/src/protocols/reqrep/xreq.c:80-205 | a socket with any number of inproc pipes: every step of it and of its peers fails no assertion, in particular no nn_list_insert of a listed pipe and no advance without a current one; -EAGAIN exactly when no pipe is ready |
| XreqPipes.NeverFails | VNanoMsg/src/main/cpp/src/utils/list.c:72-75 | the same for every next step after any run from a socket without pipes |
| XreqPipes.ListedExactly | VNanoMsg/src/main/cpp/src/core/pipe.c:94-121 | over all runs a pipe is in the slot of its priority of the fair queue iff it is attached and has a message, and of the load balancer iff it is attached and has none on its way |
| XreqPipes.ReadyExactly | VNanoMsg/src/main/cpp/src/protocols/reqrep/xreq.c:149-157 | over all runs nn_fq_can_recv holds iff some attached pipe has a message, and nn_lb_can_send iff some attached pipe has none on its way |
| XreqClosing.StepKeeps | VNanoMsg/src/main/cpp/src/core/sock.c:877-885 | from nn_close on, when NN_PIPE_IN and NN_PIPE_OUT no longer reach the protocol: no step fails an assertion in a session or a list, and the lists only lose pipes and hold none that is not ready |
| XreqClosing.NeverFails | VNanoMsg/src/main/cpp/src/core/sock.c:877-885 | the same for every next step after a close in the middle of any run |
| Sinproc.Session.constructor | VNanoMsg/src/main/cpp/src/transports/inproc/sinproc.c:65-87 | the session as the handshake leaves it |
| Sinproc.Session.PipebaseReceived | VNanoMsg/src/main/cpp/src/core/pipe.c:101-110 | in-state RECEIVING to RECEIVED, ASYNC to IDLE with NN_PIPE_IN |
| Sinproc.Session.PipebaseSent | VNanoMsg/src/main/cpp/src/core/pipe.c:112-121 | out-state SENDING to SENT, ASYNC to IDLE with NN_PIPE_OUT |
| Sinproc.Session.SendMessage | VNanoMsg/src/main/cpp/src/core/pipe.c:177-194 | in place, equal to the step on the pair of session values |
| Sinproc.Session.SinprocSend | VNanoMsg/src/main/cpp/src/transports/inproc/sinproc.c:137-176 | header and body merged into one message, exposed to the peer, SENT raised |
| Sinproc.Session.RecvMessage | VNanoMsg/src/main/cpp/src/core/pipe.c:196-214 | in place, equal to the step on the pair of session values, and the message is the first of the queue |
| Sinproc.Session.SinprocRecv | VNanoMsg/src/main/cpp/src/transports/inproc/sinproc.c:178-214 | dequeue, let a waiting message of the peer in, signal more data |
| Sinproc.Session.StopSession | VNanoMsg/src/main/cpp/src/transports/inproc/sinproc.c:276-311 | in place, equal to the step on the pair of session values |
| Sinproc.Session.ProcessEvent | VNanoMsg/src/main/cpp/src/transports/inproc/sinproc.c:413-495 | in place, equal to the step on the pair of session values, for every event in every state |
| MsgQueue.Queue.Send | VNanoMsg/src/main/cpp/src/transports/inproc/msgqueue.c:80-115 | the chunk list stays a valid FIFO although a reused chunk has a stale link; accepted exactly by the memory rule; contents get the message at the end |
| MsgQueue.Queue.Recv | VNanoMsg/src/main/cpp/src/transports/inproc/msgqueue.c:117-146 | the first message comes out, mem and count follow, chunks are cached or dropped |
| MsgQueue.Queue.NextChunk | VNanoMsg/src/main/cpp/src/transports/inproc/msgqueue.c:99-112 | going on in the cached or a new chunk keeps the queue |
| MsgQueue.Queue.DropChunk | VNanoMsg/src/main/cpp/src/transports/inproc/msgqueue.c:130-138 | leaving a chunk that is read out keeps the queue |
| MsgQueue.Queue.Term | VNanoMsg/src/main/cpp/src/transports/inproc/msgqueue.c:51-73 | draining ends with in.chunk equal to out.chunk, as the assertion demands, and loses nothing |
| TimerModel.RunTaskKeeps | VNanoMsg/src/main/cpp/src/aio/timer.c:90-177 | a worker task in any reachable state: no failure, STOPPED exactly when a stopping timer becomes idle, never a timeout |
| TimerModel.ExpireKeeps | VNanoMsg/src/main/cpp/src/aio/timer.c:115-177 | an expiry in any reachable state: no failure, and a timeout is reported exactly when the timer has not been told to stop |
| TimerModel.StopsSoon | VNanoMsg/src/main/cpp/src/aio/timer.c:90-113 | a stopping timer is idle after at most two more worker tasks |
| ReqTheory.StepKeeps | VNanoMsg/src/main/cpp/src/protocols/reqrep/req.c:343-658 | every step of user, pipes, arrivals and worker keeps machine and timer in step; it fails an assertion if and only if the user sends a message with an SP header of its own or it sends a request while the resend interval is negative |
| ReqTheory.InStep | VNanoMsg/src/main/cpp/src/protocols/reqrep/req.c:343-601 | over all runs: timer active exactly in ACTIVE, stopping exactly in TIMED_OUT, CANCELLING, STOPPING_TIMER and STOPPING, idle otherwise; sent_to set exactly in ACTIVE |
| ReqTheory.NeverAborts | VNanoMsg/src/main/cpp/src/protocols/reqrep/req.c:320-601 | as long as the user sends no SP header and sets no negative interval, no bad_action, bad_source, bad_state branch and no assertion failure is reachable |
| ReqTheory.AbortsExactly | VNanoMsg/src/main/cpp/src/protocols/reqrep/req.c:230-253 | after any run and for every next step: an assertion fails if and only if it is a send with an SP header (req.c:240), or the interval that was set last is negative and the step sends a request (timer.c:79) |
| ReqTheory.InSpec | VNanoMsg/src/main/cpp/src/protocols/reqrep/req.c:141-196 | of the messages that wait nn_req_in stores the first that answers, if none before it is too short, and leaves a dead message otherwise |
| ReqTheory.AnswersExactly | VNanoMsg/src/main/cpp/src/protocols/reqrep/req.c:158-181 | a message answers exactly when it starts with the four bytes of the latest id |
| ReqTheory.ReplyMatchesRequest | VNanoMsg/src/main/cpp/src/protocols/reqrep/req.c:141-196 | ACTIVE is left for STOPPING_TIMER if and only if messages arrive of which one starts with the id of the latest request and none before it is too short; the first such is the one stored |
| ReqTheory.StoredReplySurvives | VNanoMsg/src/main/cpp/src/protocols/reqrep/req.c:150-181 | in STOPPING_TIMER and DONE the stored reply survives an arrival if and only if nothing arrives, or the first message with the id comes before any that is too short and has the same body |
| ReqTheory.StoredReplyLost | VNanoMsg/src/main/cpp/src/protocols/reqrep/req.c:155 | any one message that does not carry the id, stale or too short, destroys a stored reply |
| ReqTheory.StoredReplyKept | VNanoMsg/src/main/cpp/src/protocols/reqrep/req.c:230-277 | nothing but an arrival, a receive or a new request touches a stored reply |
| ReqTheory.HandsOver | VNanoMsg/src/main/cpp/src/protocols/reqrep/req.c:141-277 | over runs: what crecv would hand over at any later point is the reply that ended ACTIVE, the first of its arrival with the id of the request, if and only if the last later arrival, if any, has the same body in its first message with that id and none too short before it |
| ReqTheory.CarriesLatestId | VNanoMsg/src/main/cpp/src/protocols/reqrep/req.c:141-277 | over runs: a whole reply that waits for the user was a message of an arrival after the latest request, and started with the id of that request |
| ReqTheory.SendsLatest | VNanoMsg/src/main/cpp/src/protocols/reqrep/req.c:603-635 | every transmission, resends included, carries the latest request under its id to a pipe that was ready |
| ReqTheory.DelayedOnlyWithoutPipes | VNanoMsg/src/main/cpp/src/protocols/reqrep/req.c:198-210 | a request waits in DELAYED only while no pipe is ready |
| ReqTheory.SendBetweenReceives | VNanoMsg/src/main/cpp/src/protocols/reqrep/req.c:230-277 | between two successful receives there is at least one send |
| ReqSocket.Timer.RunTask | VNanoMsg/src/main/cpp/src/aio/timer.c:90-177 | in place, equal to the step on the timer value |
| ReqSocket.ReqSocket.Handle | VNanoMsg/src/main/cpp/src/protocols/reqrep/req.c:343-601 | the switch over the state in place, equal to the step on the socket value |
| ReqSocket.ReqSocket.In | VNanoMsg/src/main/cpp/src/protocols/reqrep/req.c:141-196 | the receive loop in place over the messages that wait, short ones included, equal to the step on the socket value |
| ReqSocket.ReqSocket.ReceiveReply | VNanoMsg/src/main/cpp/src/protocols/reqrep/xreq.c:178-205 | a message is received into task.reply and split; one that is too short is thrown away, and the stored reply is gone |
| ReqSocket.ReqSocket.Send | VNanoMsg/src/main/cpp/src/protocols/reqrep/req.c:230-253 | in place, equal to the step on the socket value, for a message without an SP header |
| ReqSocket.ReqSocket.Recv | VNanoMsg/src/main/cpp/src/protocols/reqrep/req.c:255-277 | in place, with the stored reply or the error |
| ReqSocket.ReqSocket.Remove | VNanoMsg/src/main/cpp/src/protocols/reqrep/req.c:649-658 | in place, equal to the step on the socket value |
| ReqSocket.ReqSocket.WorkerTask | VNanoMsg/src/main/cpp/src/aio/timer.c:115-177 | a worker task and what the timer raises, delivered to the socket in the same critical section |
| ReqSocket.ReqSocket.Perform | VNanoMsg/src/main/cpp/src/protocols/reqrep/req.c:141-658 | any critical section on the object that fails no assertion, from the invariant to the invariant and equal to the step on the value, so a run of the object is a run of the value |
| ReqPipes.RaisesOne | VNanoMsg/src/main/cpp/src/transports/inproc/sinproc.c:421-455 | a critical section of a session raises at most one event: NN_PIPE_OUT exactly for RECEIVED, and NN_PIPE_IN, as long as nothing waits, exactly for SENT; the message then waits alone |
| ReqPipes.InTakes | VNanoMsg/src/main/cpp/src/protocols/reqrep/req.c:141-196 | nn_req_in takes the one message that waits in one turn of its loop, and leaves none |
| ReqPipes.StepKeeps | VNanoMsg/src/main/cpp/src/protocols/reqrep/req.c:141-228 | REQ over any number of inproc pipes: every step of it and of its peers tells the machine only what it expects, fails an assertion exactly where REQ alone does, and leaves no message waiting |
| ReqPipes.FailsExactly | VNanoMsg/src/main/cpp/src/protocols/reqrep/req.c:141-253 | the same for every next step after any run |
| ReqPipes.NothingWaits | VNanoMsg/src/main/cpp/src/protocols/reqrep/req.c:150-196 | over all runs: between critical sections the queue of every attached pipe is empty although nn_req_in stops early, and REQ takes for attached and for ready exactly the pipes that are |
| ReqPipes.ArrivalHandled | VNanoMsg/src/main/cpp/src/protocols/reqrep/req.c:141-196 | no lost wake-up: after any run each message of a peer is taken by nn_req_in in the critical section in which it comes |
| ReqPipes.AnswerStored | VNanoMsg/src/main/cpp/src/protocols/reqrep/req.c:158-195 | after any run in ACTIVE: the answer to the latest request, on whichever pipe it comes, is stored and stops the timer |
| ReqPipes.HandedExactly | VNanoMsg/src/main/cpp/src/protocols/reqrep/req.c:603-635 | over all runs each pipe was handed exactly what REQ transmitted to it, in order, and its peer has received a prefix |
| ReqPipes.ReplyWasSent | VNanoMsg/src/main/cpp/src/protocols/reqrep/req.c:141-277 | over all runs a whole reply that waits for the user was sent by the peer of some pipe, under the id of the latest request |
| ReqPipes.RefinesReq | VNanoMsg/src/main/cpp/src/protocols/reqrep/req.c:141-228 | within every run of socket and pipes there is a run of the REQ machine that is told what the sessions raise and nothing else, so all that holds of its runs holds here |
| Surveyor.StepKeeps | VNanoMsg/src/main/cpp/src/protocols/survey/surveyor.c:316-489 | every step keeps machine and deadline timer in step; it fails an assertion if and only if the user sends a message with an SP header of its own or it sends a survey while the deadline is negative |
| Surveyor.InStep | VNanoMsg/src/main/cpp/src/protocols/survey/surveyor.c:339-489 | over all runs: deadline timer active exactly in ACTIVE, stopping exactly in CANCELLING, STOPPING_TIMER and STOPPING; the next step fails if and only if it is a send with an SP header, or sends a survey and the deadline set last is negative |
| Surveyor.CurrentExactly | VNanoMsg/src/main/cpp/src/protocols/survey/surveyor.c:251-263 | while a survey is out a message is current exactly when it starts with the id of the survey on the wire |
| Surveyor.StaleResponse | VNanoMsg/src/main/cpp/src/protocols/survey/surveyor.c:192-273 | over runs: a message that answered the survey that was out is current later on if and only if no other survey has been sent since, for fewer than 2^31 of them |
| Surveyor.SurveyorSocket.HandleInput | VNanoMsg/src/main/cpp/src/protocols/survey/surveyor.c:339-489 | the switch over the state in place, equal to the step on the socket value |
| Surveyor.SurveyorSocket.RecvResponse | VNanoMsg/src/main/cpp/src/protocols/survey/surveyor.c:233-273 | the loop returns the first response of the current survey, EAGAIN at a message that is too short or when none is left, ETIMEDOUT or EFSM without a survey |
| Backtrace.CountWords | VNanoMsg/src/main/cpp/src/protocols/reqrep/xrep.c:215-233 | the number of words down to the bottom of the stack is positive and fits the message |
| Backtrace.ForwardKeeps | VNanoMsg/src/main/cpp/src/core/global.c:804-824 | a device hands on a header of any length: what nn_recvmsg writes as SP_HDR is what nn_sendmsg reads |
| Backtrace.HopSpec | VNanoMsg/src/main/cpp/src/protocols/reqrep/xrep.c:191-260 | a hop drops a request exactly when its stack is longer than the TTL and otherwise pushes the key of the pipe |
| Backtrace.TravelSpec | VNanoMsg/src/main/cpp/src/protocols/reqrep/xrep.c:191-260 | through any number of devices: the request passes exactly when it survives every TTL, and the keys are stacked in order |
| Backtrace.ArriveSpec | VNanoMsg/src/main/cpp/src/protocols/reqrep/xrep.c:235-257 | at REP the backtrace is the stack of all keys above the id, and the body is the request |
| Backtrace.ReturnSpec | VNanoMsg/src/main/cpp/src/protocols/reqrep/xrep.c:154-189 | the reply pops the keys in reverse and leaves on the same pipes |
| Backtrace.ReplyReturns | VNanoMsg/src/main/cpp/src/protocols/reqrep/rep.c:90-113 | from the stored backtrace back to REQ, which gets its own id as header |
| Backtrace.RoundTrip | VNanoMsg/src/main/cpp/src/protocols/reqrep/rep.c:90-140 | request and reply through any chain of devices, as promised: dropped exactly by TTL; otherwise the reply comes back over the same pipes in reverse with the id as header and the reply as body |
| EndToEnd.ReplyReachesUser | VNanoMsg/src/main/cpp/src/protocols/reqrep/req.c:141-196 | the answer to the request that is out, through any devices and REP, takes REQ out of ACTIVE with the reply stored, exactly when the request passes every TTL |
| EndToEnd.StaleReplyIgnored | VNanoMsg/src/main/cpp/src/protocols/reqrep/req.c:150-176 | the answer to a request with another id leaves REQ waiting |
| Router.AddAborts | VNanoMsg/src/main/cpp/src/utils/hash.c:90-101 | for a table with its ledger: adding a pipe fails the key assertion if and only if a pipe whose turn was a multiple of 2^31 ago is still registered |
| Router.RunLedger | VNanoMsg/src/main/cpp/src/protocols/reqrep/xrep.c:86-127 | over any run the ledger that follows the calls, one more pipe at the end for each add and none in its place from its removal on, stays the ledger of the table: the keys are those of the pipes left, each with the pipe of its turn |
| Router.TableExactly | VNanoMsg/src/main/cpp/src/protocols/reqrep/xrep.c:86-127 | after any run from an empty table the keys are exactly those of the pipes that some call added and no later call removed, each the 31 low bits of the start and the number of adds before it, and each with its pipe |
| Router.AddAbortsAfter | VNanoMsg/src/main/cpp/src/protocols/reqrep/xrep.c:103-105 | after any run from an empty table the next add fails the key assertion if and only if some call a multiple of 2^31 adds ago added a pipe that no later call has removed |
| Router.KeysRunOut | VNanoMsg/src/main/cpp/src/protocols/reqrep/xrep.c:103-105 | it can come to that with two pipes at a time: one stays while 2^31 - 1 others come and go |
| Router.PipeStays | VNanoMsg/src/main/cpp/src/protocols/reqrep/xrep.c:86-127 | a pipe stays under its key until it is removed, whatever happens to others |
| Router.RoutesHold | VNanoMsg/src/main/cpp/src/protocols/reqrep/xrep.c:86-189 | over whatever happens at the sockets of the hops while the request is out, the routing pipes of the reply are all there if and only if each is writable as the reply passes, provided none was removed |
| Router.SilentUntilOut | VNanoMsg/src/main/cpp/src/protocols/reqrep/xrep.c:140-189 | a released pipe gets no message before NN_PIPE_OUT |
| Router.Xrep.Add | VNanoMsg/src/main/cpp/src/protocols/reqrep/xrep.c:86-112 | in place: the next 31-bit key, not writable, next_key wrapping at 2^32 |
| Router.Xrep.Rm | VNanoMsg/src/main/cpp/src/protocols/reqrep/xrep.c:114-127 | in place: exactly this pipe is gone |
| Router.Xrep.Send | VNanoMsg/src/main/cpp/src/protocols/reqrep/xrep.c:154-189 | in place: pop, route or drop, and clear the flag on release |
| Router.Bottom | VNanoMsg/src/main/cpp/src/protocols/reqrep/xrep.c:215-233 | the word-count loop agrees with the specification, malformed messages included |
| Router.Xrep.Recv | VNanoMsg/src/main/cpp/src/protocols/reqrep/xrep.c:191-260 | parse, TTL check and push agree with the specification |
| Router.Rep.Send | VNanoMsg/src/main/cpp/src/protocols/reqrep/rep.c:90-113 | EFSM without a request; otherwise the stored backtrace routes the reply, once; a message with an SP header of its own fails the assertion at line 102 and is excluded |
| Router.Rep.Recv | VNanoMsg/src/main/cpp/src/protocols/reqrep/rep.c:115-140 | a request in progress is given up, the new backtrace stored |
| List.List.Insert | VNanoMsg/src/main/cpp/src/utils/list.c:72-87 | pointer surgery in place: the list is the old one with the item at its place, all links valid |
| List.List.Erase | VNanoMsg/src/main/cpp/src/utils/list.c:89-111 | pointer surgery in place: the list without the item, the item detached, its successor returned |
| PrioModel.RemoveRing | VNanoMsg/src/main/cpp/src/protocols/utils/priolist.c:60-102 | removal takes a pipe out of the turn order and keeps the order of the others |
| PrioModel.AdvanceRing | VNanoMsg/src/main/cpp/src/protocols/utils/priolist.c:149-164 | advancing takes the first pipe of the turn order, to its end unless it is released |
| PrioModel.AddRing | VNanoMsg/src/main/cpp/src/protocols/utils/priolist.c:104-121 | an activated pipe enters the turn order before the pipes that precede the current one in the list |
| PrioModel.ApplyKeeps | VNanoMsg/src/main/cpp/src/protocols/utils/priolist.c:60-176 | current is -1 exactly when all slots are empty and otherwise the first non-empty one, and each non-empty slot has a current member; no pipe twice |
| PrioModel.TurnsStep | VNanoMsg/src/main/cpp/src/protocols/utils/priolist.c:60-176 | one operation brings a waiting pipe one turn closer exactly when its slot is advanced or a pipe ahead of it is removed, and back by one exactly when a pipe is added ahead of it |
| PrioModel.Waits | VNanoMsg/src/main/cpp/src/protocols/utils/priolist.c:60-176 | the account over any run: the turns a pipe still waits are its turns at first, less the advances of its slot and the removals ahead of it, plus the additions ahead of it |
| PrioModel.ReturnedExactly | VNanoMsg/src/main/cpp/src/protocols/utils/priolist.c:60-176 | fairness, exactly: a pipe that is not removed is returned within n operations if and only if by some point of them the advances of its slot exceed its turns, less removals, plus additions ahead of it |
| PrioModel.Fair | VNanoMsg/src/main/cpp/src/protocols/utils/priolist.c:149-176 | with k pipes in the current slot and no activation each is returned within k advances or has been removed |
| PrioModel.Starves | VNanoMsg/src/main/cpp/src/protocols/utils/priolist.c:113-116 | with activations fairness fails: two pipes released and reactivated in turn keep a third of the same priority waiting for any number of advances |
| PrioList.PrioList.Activate | VNanoMsg/src/main/cpp/src/protocols/utils/priolist.c:104-135 | in place, equal to the operation on the value |
| PrioList.PrioList.Rm | VNanoMsg/src/main/cpp/src/protocols/utils/priolist.c:60-102 | in place, equal to the operation on the value, for active and inactive pipes |
| PrioList.PrioList.Advance | VNanoMsg/src/main/cpp/src/protocols/utils/priolist.c:149-176 | in place, with both levels of current pointers, equal to the operation on the value |
| PrioList.PrioList.GetPipe | VNanoMsg/src/main/cpp/src/protocols/utils/priolist.c:142-147 | NULL exactly when no slot has a pipe, otherwise the current pipe of the current slot |
| PrioList.PrioList.Use | VNanoMsg/src/main/cpp/src/protocols/utils/fq.c:61-83 | the pipe used by a receive or send, and the advance after it |
| Hash.FiledInsert | VNanoMsg/src/main/cpp/src/utils/hash.c:90-106 | the bucket of a fresh key does not hold it, and appending there files the item |
| Hash.NextSize | VNanoMsg/src/main/cpp/src/utils/hash.c:110-111 | doubling a size below the cap never passes the cap |
| Hash.Hash.Get | VNanoMsg/src/main/cpp/src/utils/hash.c:123-138 | the search in one bucket agrees with the map |
| Hash.Hash.Insert | VNanoMsg/src/main/cpp/src/utils/hash.c:90-112 | the table is the map with the key added, every item in the bucket of its key, and afterwards items*2 is at most slots or slots is at its cap |
| Hash.Hash.Erase | VNanoMsg/src/main/cpp/src/utils/hash.c:114-121 | the table is the map without the key |
| Hash.Hash.Rehash | VNanoMsg/src/main/cpp/src/utils/hash.c:55-88 | doubling loses, copies and misplaces nothing |
| Hash.MoveAll | VNanoMsg/src/main/cpp/src/utils/hash.c:72-84 | the nested loops move all items of the old slots to the slots their keys select |
| Base64.EncodingLength | VNanoMsg/src/main/cpp/src/transports/utils/base64.c:104-150 | the encoding has four characters for every three bytes begun |
| Base64.RoundTrip | VNanoMsg/src/main/cpp/src/transports/utils/base64.c:27-150 | decoding the encoding of any bytes gives them back |
| Base64.SpaceIgnored | VNanoMsg/src/main/cpp/src/transports/utils/base64.c:72-74 | whitespace inserted anywhere changes nothing |
| Base64.EncodeStreamIs | VNanoMsg/src/main/cpp/src/transports/utils/base64.c:118-135 | the shifting loops with a 32-bit accumulator compute the 24-bit quanta of section 6.8 of RFC 2045, whatever the accumulator held |
| Base64.DecodeStreamIs | VNanoMsg/src/main/cpp/src/transports/utils/base64.c:72-94 | the same for the decoder |
| Base64.Encode | VNanoMsg/src/main/cpp/src/transports/utils/base64.c:104-150 | writes the encoding and a zero behind it and nothing else; ENOBUFS exactly when the buffer is shorter than that |
| Base64.Decode | VNanoMsg/src/main/cpp/src/transports/utils/base64.c:27-102 | writes the decoding of the text up to its first foreign character or padding and nothing else; ENOBUFS exactly when it does not fit |
| Tcp.RunKeeps | VNanoMsg/src/main/cpp/src/transports/tcp/stcp.c:307-372 | in every state of every run from the start of the machine the bytes that came in are the frames taken off, a length maybe, and what is unread |
| Tcp.FramesArePrefix | VNanoMsg/src/main/cpp/src/transports/tcp/stcp.c:121-151 | parsing is unambiguous: frames at the start of a stream are the messages sent |
| Tcp.TakenIsPrefix | VNanoMsg/src/main/cpp/src/transports/tcp/stcp.c:307-372 | however the bytes are cut up and whatever NN_RCVMAXSIZE is at each header, what is taken off the stream is a prefix of what was sent |
| Tcp.AllTaken | VNanoMsg/src/main/cpp/src/transports/tcp/stcp.c:322-372 | when all has come in and nothing is left to happen, the user has exactly the messages before the first above the NN_RCVMAXSIZE that its header was met with, and the connection is dropped exactly when there is one |
| Tcp.Session.Send | VNanoMsg/src/main/cpp/src/transports/tcp/stcp.c:121-151 | length, header and body go out in this order: what has been sent is the stream of all messages handed over |
| Tcp.Session.OnReceived | VNanoMsg/src/main/cpp/src/transports/tcp/stcp.c:322-372 | the HDR and BODY steps in place with the limit that holds then, equal to the step on the value |
| Tcp.Session.Recv | VNanoMsg/src/main/cpp/src/transports/tcp/stcp.c:153-171 | the message is handed over and the next header asked for |
| SockModel.StepKeeps | VNanoMsg/src/main/cpp/src/core/sock.c:842-925 | no step of users, endpoints, protocol and close fails an assertion, and it keeps the invariant if and only if it does not add an endpoint to a socket that is no longer active |
| SockModel.RunSafe | VNanoMsg/src/main/cpp/src/core/sock.c:842-925 | the same over every interleaving |
| SockModel.FreedClean | VNanoMsg/src/main/cpp/src/core/sock.c:189-249 | the socket is freed only with no holder left and every endpoint terminated exactly once |
| SockModel.ClosedForGood | VNanoMsg/src/main/cpp/src/core/sock.c:1104-1125 | from nn_close on no hold and no second close succeeds, and the holds only fall |
| SockModel.AddKeeps | VNanoMsg/src/main/cpp/src/core/sock.c:495-525 | adding an endpoint keeps the invariant if and only if the socket is active; nn_sock_add_ep does not check |
| SockModel.LateEpStrands | VNanoMsg/src/main/cpp/src/core/sock.c:896-898 | and in no schedule does the close complete unless a user removes that endpoint again |
| SockModel.LateEpAborts | VNanoMsg/src/main/cpp/src/core/sock.c:896-898 | once an endpoint has been added after the close, there is a schedule of the steps in flight that ends in a failed assertion |
| SockModel.LateAddAborts | VNanoMsg/src/main/cpp/src/core/sock.c:495-525 | a run from a fresh socket that does so: hold, close, add |
| Sock.Sock.Hold | VNanoMsg/src/main/cpp/src/core/sock.c:1104-1117 | in place, equal to the step on the value |
| Sock.Sock.Rele | VNanoMsg/src/main/cpp/src/core/sock.c:1119-1125 | in place, equal to the step on the value |
| Sock.Sock.AddEp | VNanoMsg/src/main/cpp/src/core/sock.c:495-525 | in place, equal to the step on the value |
| Sock.Sock.RmEp | VNanoMsg/src/main/cpp/src/core/sock.c:527-563 | the search loop and the move between the lists in place, equal to the step on the value |
| Sock.Sock.Stop | VNanoMsg/src/main/cpp/src/core/sock.c:851-876 | the loop that stops all endpoints, and what follows it |
| Sock.Sock.OnEpStopped | VNanoMsg/src/main/cpp/src/core/sock.c:877-904 | in place, equal to the step on the value; the endpoint is idle and in no list |
| Sock.Sock.Close | VNanoMsg/src/main/cpp/src/core/global.c:504-527 | in place, equal to the step on the value |
| Sock.Sock.Act | VNanoMsg/src/main/cpp/src/core/sock.c:842-925 | any critical section after which the socket is still there, in place, equal to the step on the value; it touches only endpoints of its own or new ones |
| SockTable.OpenKeeps | VNanoMsg/src/main/cpp/src/core/global.c:446-465 | a new socket gets a slot nobody has, and live slots and unused stack still partition the table |
| SockTable.ShutKeeps | VNanoMsg/src/main/cpp/src/core/global.c:539-545 | a freed slot goes back on the stack and the partition is kept |
| SockTable.FullExactly | VNanoMsg/src/main/cpp/src/core/global.c:441-444 | EMFILE exactly when every slot is live |
| SockTable.StepKeeps | VNanoMsg/src/main/cpp/src/core/global.c:426-553 | no operation on any socket fails an assertion, and it keeps table and sockets sound if and only if it does not add an endpoint to a socket that is no longer active |
| SockTable.RunSafe | VNanoMsg/src/main/cpp/src/core/global.c:426-553 | the same over every run from an empty table in which endpoints are added to active sockets |
| SockTable.Global.constructor | VNanoMsg/src/main/cpp/src/core/global.c:237-255 | the initial table and stack |
| SockTable.Global.CreateSocket | VNanoMsg/src/main/cpp/src/core/global.c:426-466 | in place, equal to the operation on the value |
| SockTable.Global.HoldSocket | VNanoMsg/src/main/cpp/src/core/global.c:1124-1141 | a hold exactly on a live, active socket; EBADF otherwise and no change |
| SockTable.Global.Release | VNanoMsg/src/main/cpp/src/core/global.c:539-545 | in place, equal to the operation on the value |
| SockTable.Global.Perform | VNanoMsg/src/main/cpp/src/core/global.c:426-553 | any critical section on the table and the socket objects in it equals the step of the table of values and touches no other socket, and the objects are sound again if and only if no endpoint came too late: a run of the objects is a run of the table |

## Left out

- TrieHeap.Trie.Unsubscribe: requires that the source neither dereferences NULL nor overruns a node; TrieTheory.UnsubscribeFault says exactly when it does.
- TrieRuns.Run: goes on from well-formed tries only; what later calls do to a dense node that has miscounted its children, or to a leaf whose count has wrapped, is not described.
- TriePrune.UnsubscribeNode: returns the new subtree where the source writes it through a pointer to the caller's slot; the caller stores it. It requires what Trie.Unsubscribe requires.
- Memory: allocation failure, addresses after nn_realloc, freed or leaked blocks, and the bytes of a prefix behind prefix_len. Nodes that are dropped are simply unreachable.
- SockModel.Run: a step that is not possible ends the run, so it describes interleavings of possible steps only; -EMFILE, -EBADF and -EINVAL are modelled, errno is not.
- Surveyor.StaleResponse: says nothing beyond 2^31 surveys, where ids repeat.
- ReqSocket.ReqSocket.In: takes the messages that wait in the fair queue as a parameter; ReqPipes has the fair queue, on values.
- ReqSocket.ReqSocket.Perform: requires, as Send does, that no assertion fails in the step; ReqTheory.AbortsExactly says exactly when one does.
- ReqSocket.ReqSocket.Stop: is called when all pipes have been removed, as the socket does.
- Router.Xrep.Recv: the NN_PIPE_PARSED branch, which no transport in the repository takes.
- Base64.Decode: characters are bytes 0 to 255; on platforms with a signed char the source indexes its table with negative numbers.
- PrioList.PrioList.Activate: the lists within the slots are sequences; the doubly linked list behind them is proved on its own in List.
- Hash.Hash.Insert: the buckets are sequences, for the same reason; items are values with their key.
- SockTable.Global.End: nn_global_term and the nn_global_init of the next nn_socket are one step.
- SockTable.Global.CreateSocket: unknown domains and protocols, and nn_socket after nn_term.
- XreqPipes.Run: the sessions on the other side are those of any sockets, but their own lists are not modelled; a socket connected to itself is not covered.
- ReqPipes.Run: ends where the socket is closed; what REQ does in STOPPING_EPS, when it no longer hears of its pipes, is in XreqClosing for the lists and sessions only. It has inproc pipes only; for pipes over TCP, which hold one message at most, the same is not shown.
- Router.Rep.Send: requires that the message has no SP header of its own, for which line 102 of rep.c fails.
- SockTable.RunSafe: is about runs without an nn_bind or nn_connect that overlaps nn_close; SockTable.StepKeeps says that exactly such a step breaks the invariant, SockModel.LateEpAborts where that ends.
- fsm.c and ctx.c as programs of their own: their life cycle and run-to-completion are part of each machine's steps; the queue loops of nn_ctx_leave are not modelled.
- The inproc connect handshake before both sides are ACTIVE, and reordering of events between threads.
- TCP: connection set-up, stream header, error and shutdown events, and cutting of a send into several writes.
- IPC and WebSocket transports, PAIR, BUS, PUB, PUSH and PULL, XSURVEYOR and RESPONDENT: they repeat the arguments made here with less content.
- nn_poll, options and statistics, symbol tables, and the JNI layer.
- Threads, mutexes, semaphores as such: semaphores are counters, locks make steps.
