/** The queue of an inproc session (transports/inproc/msgqueue.c): messages in a linked list of chunks,
    with one drained chunk kept for reuse. */
module MsgQueue {
  import opened Inproc

  const GRANULARITY := 126

  class Chunk {
    const msgs: array<Message>
    var next: Chunk?

    /** nn_alloc, and line 41 or 106. */
    constructor ()
      ensures fresh(msgs) && msgs.Length == GRANULARITY && next == null
    {
      msgs := new Message[GRANULARITY](_ => []);
      next := null;
    }
  }

  lemma MemAppend(q: seq<Message>, m: Message)
    ensures Mem(q + [m]) == Mem(q) + |m|
  {
    if q != [] {
      MemAppend(q[1..], m);
      assert (q + [m])[1..] == q[1..] + [m];
    }
  }

  class Queue {
    var outChunk: Chunk
    var outPos: nat
    var inChunk: Chunk
    var inPos: nat
    var count: nat
    var mem: nat
    const maxmem: nat
    var cache: Chunk?

    ghost var contents: seq<Message>
    ghost var chunks: seq<Chunk>      // from in.chunk to out.chunk
    ghost var objs: set<object>       // the chunks in use, the cached one, and their slots

    /** The chunks in use and their slots are all different. */
    ghost predicate Apart()
      reads this
    {
      && (forall c :: 0 <= c < |chunks| ==>
            chunks[c] in objs && chunks[c].msgs in objs && chunks[c].msgs.Length == GRANULARITY && chunks[c] != cache)
      && (forall c, d :: 0 <= c < d < |chunks| ==> chunks[c] != chunks[d] && chunks[c].msgs != chunks[d].msgs)
      && (cache != null ==> cache in objs && cache.msgs in objs && cache.msgs.Length == GRANULARITY
                            && forall c :: 0 <= c < |chunks| ==> chunks[c].msgs != cache.msgs)
    }

    /** Each chunk links to the following one.  Nothing is said about the last link and about the link of
        the cached chunk: those may be stale. */
    ghost predicate Linked()
      reads this, objs
      requires Apart()
    {
      && chunks != [] && chunks[0] == inChunk && chunks[|chunks| - 1] == outChunk
      && forall c :: 0 <= c < |chunks| - 1 ==> chunks[c].next == chunks[c + 1]
    }

    /** The i-th message stands i slots behind the reading position, and the writing position is right
        behind the last. */
    ghost predicate Stored()
      reads this, objs
      requires Apart()
    {
      && |contents| == GRANULARITY * (|chunks| - 1) + outPos - inPos
      && forall c, p :: 0 <= c < |chunks| && 0 <= p < GRANULARITY && 0 <= GRANULARITY * c + p - inPos < |contents| ==>
           chunks[c].msgs[p] == contents[GRANULARITY * c + p - inPos]
    }

    /** (An equation, so that the verifier does not take it apart in every goal.) */
    ghost predicate Queued()
      reads this, objs
    {
      (Apart() && Linked() && Stored()) == true
    }

    ghost predicate Valid()
      reads this, objs
    {
      && Queued() && inPos < GRANULARITY && outPos < GRANULARITY
      && count == |contents| && mem == Mem(contents)
      && (count <= 1 || mem < maxmem)
    }

    /** nn_msgqueue_init. */
    constructor (maxmem: nat)
      ensures Valid() && contents == [] && this.maxmem == maxmem && fresh(objs)
    {
      var chunk := new Chunk();
      count, mem, this.maxmem := 0, 0, maxmem;
      outChunk, outPos, inChunk, inPos, cache := chunk, 0, chunk, 0, null;
      contents, chunks, objs := [], [chunk], {chunk, chunk.msgs};
    }

    /** nn_msgqueue_empty. */
    method Empty() returns (r: bool)
      requires Valid()
      ensures r == (contents == [])
    {
      r := count == 0;
    }

    /** nn_msgqueue_send; false stands for -EAGAIN. */
    method Send(m: Message) returns (ok: bool)
      requires Valid()
      modifies this, objs
      ensures Valid() && fresh(objs - old(objs))
      ensures ok == Accepts(old(contents), m, maxmem)
      ensures contents == if ok then old(contents) + [m] else old(contents)
    {
      if count > 0 && mem + |m| >= maxmem {
        return false;
      }
      MemAppend(contents, m);
      count := count + 1;
      mem := mem + |m|;
      Put(m);
      if outPos == GRANULARITY {
        NextChunk();
      }
      return true;
    }

    /** Lines 96-97. */
    method Put(m: Message)
      requires Queued() && outPos < GRANULARITY
      modifies `outPos, `contents, outChunk.msgs
      ensures Queued() && outPos == old(outPos) + 1 && contents == old(contents) + [m]
    {
      outChunk.msgs[outPos] := m;
      outPos := outPos + 1;
      contents := contents + [m];
    }

    /** Lines 101-112: the chunk is full, go on in the cached one or in a new one. */
    method NextChunk()
      requires Queued() && outPos == GRANULARITY
      modifies `outChunk, `outPos, `cache, `chunks, `objs, outChunk`next
      ensures Queued() && outPos == 0 && fresh(objs - old(objs))
    {
      if cache == null {
        cache := new Chunk();
        objs := objs + {cache, cache.msgs};
      }
      outChunk.next := cache;
      outChunk := cache;
      chunks := chunks + [cache];
      cache := null;
      outPos := 0;
    }

    /** nn_msgqueue_recv; false stands for -EAGAIN. */
    method Recv() returns (ok: bool, m: Message)
      requires Valid()
      modifies this
      ensures Valid() && objs == old(objs)
      ensures ok == (old(contents) != [])
      ensures old(contents) == if ok then [m] + contents else contents
    {
      if count == 0 {
        return false, [];
      }
      ok := true;
      m := Get();
      assert Mem(old(contents)) == |m| + Mem(contents) by { assert old(contents)[1..] == contents; }
      if inPos == GRANULARITY {
        DropChunk();
      }
      Account(m);
    }

    /** Lines 140-143. */
    method Account(m: Message)
      requires Queued() && count > 0 && mem >= |m|
      modifies `count, `mem
      ensures Queued() && count == old(count) - 1 && mem == old(mem) - |m|
    {
      count := count - 1;
      mem := mem - |m|;
    }

    /** Lines 126-129. */
    method Get() returns (m: Message)
      requires Queued() && inPos < GRANULARITY && contents != []
      modifies `inPos, `contents
      ensures Queued() && inPos == old(inPos) + 1 && [m] + contents == old(contents)
    {
      m := inChunk.msgs[inPos];
      assert m == contents[GRANULARITY * 0 + inPos - inPos];
      inPos := inPos + 1;
      contents := contents[1..];
    }

    /** Lines 131-137: the chunk is read out; keep it for reuse, with its link, or free it. */
    method DropChunk()
      requires Queued() && inPos == GRANULARITY && |chunks| > 1
      modifies `inChunk, `inPos, `cache, `chunks
      ensures Queued() && inPos == 0
    {
      var o := inChunk;
      assert inChunk.next == chunks[1];
      inChunk := inChunk.next;
      chunks := chunks[1..];
      inPos := 0;
      if cache == null {
        cache := o;
      }
    }

    /** nn_msgqueue_term: drain the queue; then one chunk is left in use and freed. */
    method Term() returns (ghost drained: seq<Message>)
      requires Valid()
      modifies this
      ensures Valid() && contents == [] && inChunk == outChunk && drained == old(contents)
    {
      drained := [];
      while true
        invariant Valid() && objs == old(objs) && drained + contents == old(contents)
        decreases |contents|
      {
        ghost var before := contents;
        var ok, m := Recv();
        if !ok {
          break;
        }
        assert drained + before == drained + [m] + contents;
        drained := drained + [m];
      }
    }
  }
}
