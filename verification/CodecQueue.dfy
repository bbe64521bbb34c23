/** The PCM queue of the codec driver: a ring of five nodes between codec_write and the DMA interrupt. */
module CodecQueue {
  import opened Ring

  const DATA_NODE_MAX := 5

  datatype Node = Node(ptr: nat, size: nat)

  datatype Dma = Off | On(node: Node)

  /** ms is the MS bit of r06, irq the interrupt enable, done the buffers handed to tx_complete so far. */
  datatype Codec = Codec(list: seq<Node>, read: nat, put: nat, ms: bool, dma: Dma, irq: bool, done: seq<nat>)

  predicate InRange(c: Codec) {
    |c.list| == DATA_NODE_MAX && c.read < DATA_NODE_MAX && c.put < DATA_NODE_MAX
  }

  function Following(index: nat): nat {
    if index + 1 >= DATA_NODE_MAX then 0 else index + 1
  }

  function Count(c: Codec): (n: nat)
    requires InRange(c)
    ensures n < DATA_NODE_MAX
  {
    if c.put >= c.read then c.put - c.read else c.put + DATA_NODE_MAX - c.read
  }

  /** The nodes accepted and not yet completed, oldest first. */
  function Queue(c: Codec): (q: seq<Node>)
    requires InRange(c)
    ensures |q| == Count(c)
  {
    Content(c.list, c.read, Count(c))
  }

  function Pointers(q: seq<Node>): (p: seq<nat>)
    ensures |p| == |q|
  {
    seq(|q|, i requires 0 <= i < |q| => q[i].ptr)
  }

  /* The operations. */

  predicate Full(c: Codec) {
    Following(c.put) == c.read
  }

  /** The masked part of codec_write. */
  function Put(c: Codec, node: Node): Codec
    requires InRange(c)
  {
    var d := c.(list := c.list[c.put := node], put := Following(c.put));
    if Following(d.read) == d.put then d.(irq := true, dma := On(node), ms := true) else d
  }

  /** codec_dma_isr */
  function Isr(c: Codec): Codec
    requires InRange(c)
  {
    var next := Following(c.read);
    var d := c.(read := next, done := c.done + [c.list[c.read].ptr]);
    if next != c.put then d.(dma := On(c.list[next]), ms := true)
    else if c.ms then d.(dma := Off, ms := false)
    else d
  }

  /** codec_close, once it has seen the MS bit: the interrupt and the DMA go off, every node is completed. */
  function Close(c: Codec): Codec
    requires InRange(c)
  {
    Drain(c.(irq := false, dma := Off, ms := false))
  }

  function Drain(c: Codec): Codec
    requires InRange(c)
    decreases Count(c)
  {
    if c.read == c.put then c
    else Drain(c.(done := c.done + [c.list[c.read].ptr], read := Following(c.read)))
  }

  predicate Inv(c: Codec) {
    InRange(c) && Wired(c)
  }

  /** MS is set exactly when the queue is non-empty, and the DMA then runs on the node at the read index. */
  predicate Wired(c: Codec)
    requires InRange(c)
  {
    && (c.ms <==> Queue(c) != [])
    && c.dma == (if Queue(c) == [] then Off else On(c.list[c.read]))
    && (Queue(c) != [] ==> c.irq)
  }

  lemma HeadIsRead(c: Codec)
    requires InRange(c) && Queue(c) != []
    ensures Queue(c)[0] == c.list[c.read]
  {
    PopFront(c.list, c.read, Count(c));
  }

  lemma FullAtFour(c: Codec)
    requires InRange(c)
    ensures Full(c) <==> |Queue(c)| == 4
  {
  }

  /** A write into a queue that is not full appends its node. */
  lemma PutAppends(c: Codec, node: Node)
    requires Inv(c) && |Queue(c)| < 4
    ensures Inv(Put(c, node)) && Put(c, node).done == c.done
    ensures Queue(Put(c, node)) == Queue(c) + [node]
  {
    var d := Put(c, node);
    assert Count(d) == Count(c) + 1;
    PushBack(c.list, c.read, Count(c), node);
    if Queue(c) != [] {
      HeadIsRead(c);
      HeadIsRead(d);
    }
  }

  /** The interrupt completes the oldest node and leaves the others. */
  lemma IsrPops(c: Codec)
    requires Inv(c) && c.dma.On?
    ensures Inv(Isr(c)) && Queue(Isr(c)) == Queue(c)[1..]
    ensures Isr(c).done == c.done + [Queue(c)[0].ptr]
  {
    HeadIsRead(c);
    ReadingOn(c, Isr(c));
  }

  lemma ReadingOn(c: Codec, d: Codec)
    requires InRange(c) && Queue(c) != []
    requires d.list == c.list && d.put == c.put && d.read == Following(c.read)
    ensures Queue(d) == Queue(c)[1..]
  {
    PopFront(c.list, c.read, Count(c));
  }

  /** Closing completes every queued node, in order. */
  lemma CloseCompletesAll(c: Codec)
    requires InRange(c)
    ensures Inv(Close(c)) && Queue(Close(c)) == [] && Close(c).done == c.done + Pointers(Queue(c))
  {
    var d := c.(irq := false, dma := Off, ms := false);
    assert Queue(d) == Queue(c);
    DrainCompletesAll(d);
  }

  lemma {:induction false} DrainCompletesAll(c: Codec)
    requires InRange(c)
    ensures InRange(Drain(c)) && Queue(Drain(c)) == [] && Drain(c).done == c.done + Pointers(Queue(c))
    ensures Drain(c).ms == c.ms && Drain(c).dma == c.dma && Drain(c).irq == c.irq
    decreases Count(c)
  {
    if c.read != c.put {
      var d := c.(done := c.done + [c.list[c.read].ptr], read := Following(c.read));
      ReadingOn(c, d);
      HeadIsRead(c);
      DrainCompletesAll(d);
      assert Pointers(Queue(c)) == [Queue(c)[0].ptr] + Pointers(Queue(d));
    }
  }

  /** What was accepted is what has been completed, then, with its lengths, what is queued, then what is in hand. */
  predicate Accounted(c: Codec, accepted: seq<Node>, inHand: seq<Node>)
    requires InRange(c)
  {
    && |accepted| == |c.done| + |Queue(c)| + |inHand|
    && Pointers(accepted[..|c.done|]) == c.done
    && accepted[|c.done|..] == Queue(c) + inHand
  }

  lemma AcceptedMore(c: Codec, accepted: seq<Node>, node: Node)
    requires InRange(c) && Accounted(c, accepted, [])
    ensures Accounted(c, accepted + [node], [node])
  {
    assert (accepted + [node])[..|c.done|] == accepted[..|c.done|];
  }

  lemma QueuedMore(c: Codec, d: Codec, accepted: seq<Node>, node: Node)
    requires InRange(c) && InRange(d) && Accounted(c, accepted, [node])
    requires Queue(d) == Queue(c) + [node] && d.done == c.done
    ensures Accounted(d, accepted, [])
  {
  }

  lemma CompletedMore(c: Codec, d: Codec, accepted: seq<Node>, inHand: seq<Node>)
    requires InRange(c) && InRange(d) && Accounted(c, accepted, inHand) && Queue(c) != []
    requires Queue(d) == Queue(c)[1..] && d.done == c.done + [Queue(c)[0].ptr]
    ensures Accounted(d, accepted, inHand)
  {
    hide Queue;
    var n := |c.done|;
    assert accepted[n] == accepted[n..][0] == Queue(c)[0];
    assert accepted[..n + 1] == accepted[..n] + [accepted[n]];
    PointersAppend(accepted[..n], accepted[n]);
    assert accepted[n + 1..] == accepted[n..][1..] == Queue(c)[1..] + inHand;
  }

  lemma CompletedAll(c: Codec, d: Codec, accepted: seq<Node>)
    requires InRange(c) && InRange(d) && Accounted(c, accepted, [])
    requires Queue(d) == [] && d.done == c.done + Pointers(Queue(c))
    ensures Accounted(d, accepted, []) && d.done == Pointers(accepted)
  {
    hide Queue;
    var n := |c.done|;
    assert accepted == accepted[..n] + accepted[n..];
    PointersConcat(accepted[..n], accepted[n..]);
    assert accepted[..|accepted|] == accepted && accepted[|accepted|..] == [];
  }

  lemma PointersConcat(p: seq<Node>, q: seq<Node>)
    ensures Pointers(p + q) == Pointers(p) + Pointers(q)
  {
  }

  lemma PointersAppend(q: seq<Node>, n: Node)
    ensures Pointers(q + [n]) == Pointers(q) + [n.ptr]
  {
  }

  lemma PointersHead(q: seq<Node>)
    requires q != []
    ensures Pointers(q) == [q[0].ptr] + Pointers(q[1..])
  {
  }

  lemma NoPointers()
    ensures Pointers([]) == []
  {
  }

  lemma OnMeansQueued(c: Codec)
    requires Inv(c) && c.dma.On?
    ensures Queue(c) != []
  {
  }

  /** The driver's fields and its three entry points in place. */
  class CodecDevice {
    const dataList: array<Node>
    var readIndex: nat
    var putIndex: nat
    var msBit: bool
    var stream: Dma
    var irqEnabled: bool
    var completed: seq<nat>

    ghost predicate Valid()
      reads this, dataList
    {
      InRange(Abs())
    }

    ghost function Abs(): Codec
      reads this, dataList
    {
      Codec(dataList[..], readIndex, putIndex, msBit, stream, irqEnabled, completed)
    }

    constructor ()
      ensures Valid() && fresh(dataList) && Inv(Abs()) && Queue(Abs()) == [] && completed == []
    {
      dataList := new Node[DATA_NODE_MAX];
      readIndex, putIndex := 0, 0;
      msBit, stream, irqEnabled, completed := false, Off, false, [];
    }

    /** codec_write before it masks interrupts: the full test. */
    method HasRoom() returns (ok: bool)
      requires Valid()
      ensures ok == !Full(Abs())
    {
      var next := putIndex + 1;
      if next >= DATA_NODE_MAX {
        next := 0;
      }
      ok := next != readIndex;
    }

    /** codec_write with interrupts masked. */
    method Accept(node: Node)
      requires Valid()
      modifies this`putIndex, this`irqEnabled, this`stream, this`msBit, dataList
      ensures Valid() && Abs() == Put(old(Abs()), node)
    {
      var next := putIndex + 1;
      if next >= DATA_NODE_MAX {
        next := 0;
      }
      dataList[putIndex] := node;
      putIndex := next;
      next := readIndex + 1;
      if next >= DATA_NODE_MAX {
        next := 0;
      }
      if next == putIndex {
        irqEnabled := true;
        stream := On(node);
        if !msBit {
          msBit := true;
        }
      }
    }

    method DmaInterrupt()
      requires Valid()
      modifies this`readIndex, this`stream, this`msBit, this`completed
      ensures Valid() && Abs() == Isr(old(Abs()))
    {
      var next := readIndex + 1;
      if next >= DATA_NODE_MAX {
        next := 0;
      }
      var ptr := dataList[readIndex].ptr;
      readIndex := next;
      if next != putIndex {
        stream := On(dataList[readIndex]);
        if !msBit {
          msBit := true;
        }
      } else if msBit {
        stream := Off;
        msBit := false;
      }
      completed := completed + [ptr];
    }

    /** codec_close after its test of the MS bit. */
    method Shutdown()
      requires Valid()
      modifies this`irqEnabled, this`stream, this`msBit, this`completed, this`readIndex
      ensures Valid() && Abs() == Close(old(Abs()))
    {
      irqEnabled, stream, msBit := false, Off, false;
      while readIndex != putIndex
        invariant Valid() && Drain(Abs()) == Close(old(Abs()))
        invariant putIndex == old(putIndex) && dataList[..] == old(dataList[..])
        decreases Count(Abs())
      {
        completed := completed + [dataList[readIndex].ptr];
        readIndex := readIndex + 1;
        if readIndex >= DATA_NODE_MAX {
          readIndex := 0;
        }
      }
    }
  }
}
