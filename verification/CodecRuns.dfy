/** The codec queue under one writer and the DMA interrupt: a FIFO of capacity four, whatever the writer writes. */
module CodecRuns {
  import opened CodecQueue

  /** Where the thread that writes and closes the device is. */
  datatype Thread = Idle | Tested(node: Node) | Closing

  /** accepted lists the buffers and lengths codec_write took, refused the calls it turned away. */
  datatype System = System(codec: Codec, thread: Thread, accepted: seq<Node>, refused: nat)

  /** WriteTest is codec_write before it masks interrupts, Enqueue the masked part: interrupts may come between. */
  datatype Action = WriteTest(node: Node) | Enqueue | Interrupt | CloseTest | CloseDrain

  predicate Enabled(s: System, a: Action) {
    match a
    case WriteTest(_) => s.thread == Idle
    case Enqueue => s.thread.Tested?
    case Interrupt => s.codec.irq && s.codec.dma.On?
    case CloseTest => s.thread == Idle
    case CloseDrain => s.thread == Closing
  }

  function Next(s: System, a: Action): System
    requires InRange(s.codec) && Enabled(s, a)
  {
    match a
    case WriteTest(node) =>
      if Full(s.codec) then s.(refused := s.refused + 1)
      else s.(thread := Tested(node), accepted := s.accepted + [node])
    case Enqueue => s.(codec := Put(s.codec, s.thread.node), thread := Idle)
    case Interrupt => s.(codec := Isr(s.codec))
    case CloseTest => if s.codec.ms then s.(thread := Closing) else s
    case CloseDrain => s.(codec := Close(s.codec), thread := Idle)
  }

  ghost predicate Run(states: seq<System>, actions: seq<Action>) {
    && |states| == |actions| + 1
    && CodecQueue.Inv(states[0].codec) && Queue(states[0].codec) == [] && states[0].codec.done == []
    && states[0] == System(states[0].codec, Idle, [], 0)
    && forall i | 0 <= i < |actions| ::
         InRange(states[i].codec) && Enabled(states[i], actions[i]) && states[i + 1] == Next(states[i], actions[i])
  }

  function InHand(t: Thread): seq<Node> {
    if t.Tested? then [t.node] else []
  }

  predicate Inv(s: System) {
    && CodecQueue.Inv(s.codec)
    && Accounted(s.codec, s.accepted, InHand(s.thread))
    && (s.thread.Tested? ==> |Queue(s.codec)| < 4)
  }

  /** The FIFO's view of one action: what it holds and what has left it. */
  lemma NextInv(s: System, a: Action)
    requires Inv(s) && Enabled(s, a)
    ensures Inv(Next(s, a))
    ensures a == Interrupt ==> Queue(s.codec) != [] && Queue(Next(s, a).codec) == Queue(s.codec)[1..]
                               && Next(s, a).codec.done == s.codec.done + [Queue(s.codec)[0].ptr]
    ensures a == Enqueue ==> Queue(Next(s, a).codec) == Queue(s.codec) + [s.thread.node]
    ensures a.WriteTest? ==> Queue(Next(s, a).codec) == Queue(s.codec)
                             && (Next(s, a).refused > s.refused <==> |Queue(s.codec)| == 4)
  {
    hide Wired, Put, Isr, Close, Queue, Pointers, Full, Accounted;
    FullAtFour(s.codec);
    match a
    case WriteTest(node) => AcceptedMore(s.codec, s.accepted, node);
    case Enqueue =>
      PutAppends(s.codec, s.thread.node);
      QueuedMore(s.codec, Put(s.codec, s.thread.node), s.accepted, s.thread.node);
    case Interrupt =>
      OnMeansQueued(s.codec);
      IsrPops(s.codec);
      CompletedMore(s.codec, Isr(s.codec), s.accepted, InHand(s.thread));
    case CloseDrain =>
      CloseCompletesAll(s.codec);
      CompletedAll(s.codec, Close(s.codec), s.accepted);
    case _ =>
  }

  lemma {:induction false} RunInv(states: seq<System>, actions: seq<Action>, i: nat)
    requires Run(states, actions) && i < |states|
    ensures Inv(states[i])
  {
    if i > 0 {
      hide Next, Enabled, Inv;
      RunInv(states, actions, i - 1);
      NextInv(states[i - 1], actions[i - 1]);
    }
  }

  /**
   * In every run: at most four buffers queued, MS set exactly when there is one, the DMA on the oldest of them,
   * and tx_complete called for the accepted buffers in write order, once each, those closing drains included.
   * A close drains exactly when there is something queued.
   */
  lemma QueueIsFifo(states: seq<System>, actions: seq<Action>, i: nat)
    requires Run(states, actions) && i < |states|
    ensures var c := states[i].codec;
            && InRange(c) && |Queue(c)| <= 4
            && (c.ms <==> Queue(c) != [])
            && c.dma == (if Queue(c) == [] then Off else On(Queue(c)[0]))
            && |c.done| <= |states[i].accepted|
            && (forall k :: 0 <= k < |c.done| ==> c.done[k] == states[i].accepted[k].ptr)
            && states[i].accepted[|c.done|..] == Queue(c) + InHand(states[i].thread)
    ensures Enabled(states[i], CloseTest) ==>
              (Next(states[i], CloseTest).thread == Closing <==> Queue(states[i].codec) != [])
    ensures Enabled(states[i], CloseDrain) ==>
              Next(states[i], CloseDrain).codec.done == Pointers(states[i].accepted)
  {
    RunInv(states, actions, i);
    var c := states[i].codec;
    if Queue(c) != [] {
      HeadIsRead(c);
    }
    CloseCompletesAll(c);
    forall k | 0 <= k < |c.done| ensures c.done[k] == states[i].accepted[k].ptr {
      assert c.done[k] == Pointers(states[i].accepted[..|c.done|])[k];
    }
    if states[i].thread == Closing {
      CompletedAll(c, Close(c), states[i].accepted);
    }
  }
}
