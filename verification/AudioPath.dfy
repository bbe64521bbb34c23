/**
 * The way of a PCM block: from the two-block pool through the decoder's hand and the codec queue back to the
 * pool. The decoder thread, the DMA interrupt and the close of the device are the agents.
 */
module AudioPath {
  import opened CodecQueue

  const BLOCKS := multiset{0, 1}

  /** Where the decoder thread is with the block it holds. */
  datatype Hand = Empty | Holding(block: nat) | Tested(block: nat, size: nat) | Closing

  /** The block, with its length, that a decoder is about to queue. */
  function InWriting(h: Hand): seq<Node> {
    match h
    case Tested(block, size) => [Node(block, size)]
    case _ => []
  }

  /** taken and released count what the pool gave out and got back; accepted lists what codec_write took. */
  datatype System = System(
    codec: Codec, free: multiset<nat>, hand: Hand,
    taken: multiset<nat>, released: multiset<nat>, accepted: seq<Node>)

  datatype Action =
    | Alloc(block: nat)
    | Discard
    | TestFull(size: nat)
    | Enqueue
    | Interrupt
    | CloseTest
    | CloseDrain

  predicate Enabled(s: System, a: Action) {
    match a
    case Alloc(block) => s.hand == Empty && block in s.free
    case Discard => s.hand.Holding?
    case TestFull(_) => s.hand.Holding?
    case Enqueue => s.hand.Tested?
    case Interrupt => s.codec.irq && s.codec.dma.On?
    case CloseTest => s.hand == Empty
    case CloseDrain => s.hand == Closing
  }

  /** The blocks tx_complete was called for between two states of the codec, all given back to the pool. */
  function GiveBack(s: System, codec: Codec, blocks: seq<nat>): System {
    s.(codec := codec, free := s.free + multiset(blocks), released := s.released + multiset(blocks))
  }

  function Next(s: System, a: Action): System
    requires InRange(s.codec) && Enabled(s, a)
  {
    match a
    case Alloc(block) =>
      s.(free := s.free - multiset{block}, taken := s.taken + multiset{block}, hand := Holding(block))
    case Discard =>
      var block := s.hand.block;
      s.(free := s.free + multiset{block}, released := s.released + multiset{block}, hand := Empty)
    case TestFull(size) =>
      // A refused write is not noticed by mp3_decoder_run: the block would be dropped.
      if Full(s.codec) then s.(hand := Empty)
      else s.(hand := Tested(s.hand.block, size), accepted := s.accepted + [Node(s.hand.block, size)])
    case Enqueue => s.(codec := Put(s.codec, Node(s.hand.block, s.hand.size)), hand := Empty)
    case Interrupt => GiveBack(s, Isr(s.codec), [s.codec.list[s.codec.read].ptr])
    case CloseTest => if s.codec.ms then s.(hand := Closing) else s
    case CloseDrain => GiveBack(s, Close(s.codec), Pointers(Queue(s.codec))).(hand := Empty)
  }

  predicate Initial(s: System) {
    && InRange(s.codec) && CodecQueue.Inv(s.codec) && Queue(s.codec) == [] && s.codec.done == []
    && s == System(s.codec, BLOCKS, Empty, multiset{}, multiset{}, [])
  }

  ghost predicate Run(states: seq<System>, actions: seq<Action>) {
    && |states| == |actions| + 1
    && Initial(states[0])
    && forall i | 0 <= i < |actions| ::
         InRange(states[i].codec) && Enabled(states[i], actions[i]) && states[i + 1] == Next(states[i], actions[i])
  }

  function InHand(h: Hand): multiset<nat> {
    match h
    case Holding(block) => multiset{block}
    case Tested(block, _) => multiset{block}
    case _ => multiset{}
  }

  /** What is back plus what is in use makes the total. */
  predicate Balanced(total: multiset<nat>, back: multiset<nat>, hand: Hand, queued: seq<nat>) {
    back + InHand(hand) + multiset(queued) == total
  }

  /** Each block is in exactly one place, and the codec has completed what it accepted, in order. */
  predicate Inv(s: System) {
    && CodecQueue.Inv(s.codec)
    && Balanced(BLOCKS, s.free, s.hand, Pointers(Queue(s.codec)))
    && Balanced(s.taken, s.released, s.hand, Pointers(Queue(s.codec)))
    && Accounted(s.codec, s.accepted, InWriting(s.hand))
  }

  /** The queue never holds more than the two blocks there are. */
  lemma QueueHoldsTwo(s: System)
    requires Inv(s)
    ensures |Queue(s.codec)| + |InHand(s.hand)| + |s.free| == 2
    ensures !Full(s.codec)
  {
    var p := Pointers(Queue(s.codec));
    assert |multiset(p)| == |p|;
    assert |BLOCKS| == 2;
    FullAtFour(s.codec);
  }

  lemma EnqueueInv(s: System)
    requires Inv(s) && Enabled(s, Enqueue)
    ensures Inv(Next(s, Enqueue))
  {
    hide Wired, Put, Queue, Pointers, Full, Balanced, Accounted;
    QueueHoldsTwo(s);
    var n := Node(s.hand.block, s.hand.size);
    FourNotReached(s.codec);
    PutAppends(s.codec, n);
    PointersAppend(Queue(s.codec), n);
    QueuedMore(s.codec, Put(s.codec, n), s.accepted, n);
    FromHandToQueue(BLOCKS, s.free, s.hand, Pointers(Queue(s.codec)));
    FromHandToQueue(s.taken, s.released, s.hand, Pointers(Queue(s.codec)));
  }

  lemma FromHandToQueue(total: multiset<nat>, back: multiset<nat>, hand: Hand, queued: seq<nat>)
    requires Balanced(total, back, hand, queued) && hand.Tested?
    ensures Balanced(total, back, Empty, queued + [hand.block])
  {
    assert multiset(queued + [hand.block]) == multiset(queued) + multiset([hand.block]);
  }

  lemma FromQueueBack(total: multiset<nat>, back: multiset<nat>, hand: Hand, head: nat, tail: seq<nat>)
    requires Balanced(total, back, hand, [head] + tail)
    ensures Balanced(total, back + multiset([head]), hand, tail)
  {
    assert multiset([head] + tail) == multiset([head]) + multiset(tail);
  }

  lemma NothingHeld(total: multiset<nat>, back: multiset<nat>, queued: seq<nat>)
    requires Balanced(total, back, Empty, queued)
    ensures Balanced(total, back, Closing, queued)
  {
  }

  lemma AllBack(total: multiset<nat>, back: multiset<nat>, queued: seq<nat>)
    requires Balanced(total, back, Closing, queued)
    ensures Balanced(total, back + multiset(queued), Empty, [])
  {
  }

  lemma FromPoolToHand(total: multiset<nat>, free: multiset<nat>, block: nat, queued: seq<nat>)
    requires Balanced(total, free, Empty, queued) && block in free
    ensures Balanced(total, free - multiset{block}, Holding(block), queued)
  {
  }

  lemma FromHandBack(total: multiset<nat>, back: multiset<nat>, block: nat, queued: seq<nat>)
    requires Balanced(total, back, Holding(block), queued)
    ensures Balanced(total, back + multiset{block}, Empty, queued)
  {
  }

  lemma TakenAlong(taken: multiset<nat>, released: multiset<nat>, block: nat, queued: seq<nat>)
    requires Balanced(taken, released, Empty, queued)
    ensures Balanced(taken + multiset{block}, released, Holding(block), queued)
  {
  }

  lemma FourNotReached(c: Codec)
    requires InRange(c) && !Full(c)
    ensures |Queue(c)| < DATA_NODE_MAX - 1
  {
    FullAtFour(c);
  }

  lemma InterruptInv(s: System)
    requires Inv(s) && Enabled(s, Interrupt)
    ensures Inv(Next(s, Interrupt))
  {
    hide Wired, Isr, Queue, Pointers, Balanced, Accounted;
    OnMeansQueued(s.codec);
    HeadIsRead(s.codec);
    IsrPops(s.codec);
    CompletedMore(s.codec, Isr(s.codec), s.accepted, InWriting(s.hand));
    PointersHead(Queue(s.codec));
    var head, tail := s.codec.list[s.codec.read].ptr, Pointers(Queue(s.codec)[1..]);
    FromQueueBack(BLOCKS, s.free, s.hand, head, tail);
    FromQueueBack(s.taken, s.released, s.hand, head, tail);
  }

  lemma CloseInv(s: System)
    requires Inv(s) && Enabled(s, CloseDrain)
    ensures Inv(Next(s, CloseDrain))
  {
    hide Wired, Close, Queue, Pointers, Balanced, Accounted;
    CloseCompletesAll(s.codec);
    CompletedAll(s.codec, Close(s.codec), s.accepted);
    NoPointers();
    AllBack(BLOCKS, s.free, Pointers(Queue(s.codec)));
    AllBack(s.taken, s.released, Pointers(Queue(s.codec)));
  }

  lemma NextInv(s: System, a: Action)
    requires Inv(s) && Enabled(s, a)
    ensures Inv(Next(s, a))
  {
    match a
    case Enqueue => EnqueueInv(s);
    case Interrupt => InterruptInv(s);
    case CloseDrain => CloseInv(s);
    case TestFull(size) =>
      QueueHoldsTwo(s);
      AcceptedMore(s.codec, s.accepted, Node(s.hand.block, size));
    case _ => OtherInv(s, a);
  }

  /** The steps that move a block between pool and hand, and the test of the MS bit. */
  lemma OtherInv(s: System, a: Action)
    requires Inv(s) && Enabled(s, a) && (a.Alloc? || a == Discard || a == CloseTest)
    ensures Inv(Next(s, a))
  {
    hide Wired, Queue, Pointers, Balanced;
    var queued := Pointers(Queue(s.codec));
    match a
    case Alloc(block) =>
      FromPoolToHand(BLOCKS, s.free, block, queued);
      TakenAlong(s.taken, s.released, block, queued);
    case Discard =>
      FromHandBack(BLOCKS, s.free, s.hand.block, queued);
      FromHandBack(s.taken, s.released, s.hand.block, queued);
    case CloseTest =>
      NothingHeld(BLOCKS, s.free, queued);
      NothingHeld(s.taken, s.released, queued);
  }

  /** In how many of pool, hand and queue a block is. */
  function Places(s: System, block: nat): nat
    requires InRange(s.codec)
  {
    s.free[block] + InHand(s.hand)[block] + multiset(Pointers(Queue(s.codec)))[block]
  }

  lemma {:induction false} RunInv(states: seq<System>, actions: seq<Action>, i: nat)
    requires Run(states, actions) && i < |states|
    ensures Inv(states[i])
  {
    if i > 0 {
      hide Next, Enabled;
      RunInv(states, actions, i - 1);
      NextInv(states[i - 1], actions[i - 1]);
    }
  }

  /**
   * In every interleaving: each of the two blocks is in exactly one of pool, hand and queue; the queue is
   * never full, so no write is refused; and everything taken was released once or is still in use.
   */
  lemma BlocksAreConserved(states: seq<System>, actions: seq<Action>, i: nat, block: nat)
    requires Run(states, actions) && i < |states|
    ensures var s := states[i];
            && InRange(s.codec)
            && Places(s, block) == (if block == 0 || block == 1 then 1 else 0)
            && s.taken[block] == s.released[block] + Places(s, block) - s.free[block]
            && |Queue(s.codec)| <= 2 && !Full(s.codec)
  {
    RunInv(states, actions, i);
    var s := states[i];
    QueueHoldsTwo(s);
    var queued := multiset(Pointers(Queue(s.codec)));
    assert (s.free + InHand(s.hand) + queued)[block] == BLOCKS[block];
    assert s.taken[block] == (s.released + InHand(s.hand) + queued)[block];
  }

  /** tx_complete is called for the accepted buffers in write order, once each; the rest is the queue. */
  lemma CompletedInOrder(states: seq<System>, actions: seq<Action>, i: nat)
    requires Run(states, actions) && i < |states|
    ensures var s := states[i];
            && InRange(s.codec)
            && |s.codec.done| <= |s.accepted|
            && (forall k :: 0 <= k < |s.codec.done| ==> s.codec.done[k] == s.accepted[k].ptr)
            && s.accepted[|s.codec.done|..] == Queue(s.codec) + InWriting(s.hand)
            && (s.codec.ms <==> Queue(s.codec) != [])
            && (Queue(s.codec) != [] ==> s.codec.irq && s.codec.dma == On(Queue(s.codec)[0]))
            && (s.hand == Empty ==> (Next(s, CloseTest).hand == Closing <==> Queue(s.codec) != []))
  {
    RunInv(states, actions, i);
    var s := states[i];
    if Queue(s.codec) != [] {
      HeadIsRead(s.codec);
    }
    forall k | 0 <= k < |s.codec.done| ensures s.codec.done[k] == s.accepted[k].ptr {
      assert s.codec.done[k] == Pointers(s.accepted[..|s.codec.done|])[k];
    }
  }

  /** A decoder waiting for a block is never stuck: with an empty pool the DMA is running and its interrupt frees one. */
  lemma EmptyPoolRefills(states: seq<System>, actions: seq<Action>, i: nat)
    requires Run(states, actions) && i < |states|
    requires states[i].hand == Empty && states[i].free == multiset{}
    ensures InRange(states[i].codec) && Enabled(states[i], Interrupt) && |Next(states[i], Interrupt).free| == 1
  {
    RunInv(states, actions, i);
    QueueHoldsTwo(states[i]);
  }
}
