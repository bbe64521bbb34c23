/**
 * The receive descriptor chain of the Ethernet driver. The DMA stores frames in the descriptors it owns; the
 * driver takes them from DMARxDescToGet on and arms each descriptor again.
 */
module EthRx {
  import opened EthChain
  import opened Ring

  /** The bytes of the frame checksum, which the driver takes off. */
  const CRC := 4

  /** What the DMA writes back: the frame's bytes with their CRC, and whether the status says one whole good frame. */
  datatype Arrival = Arrival(bytes: seq<int>, good: bool)

  /** filled, arrived, allocs and delivered are history; allocs says which pbuf allocations succeeded. */
  datatype Rx = Rx(
    own: seq<bool>, buf: seq<Arrival>, next: seq<nat>, toGet: nat, dma: nat,
    filled: nat, arrived: seq<Arrival>, allocs: seq<bool>, delivered: seq<seq<int>>)

  datatype Action = Receive(frame: Arrival) | Poll(alloc: bool)

  predicate Sound(r: Rx) {
    && |r.own| == |r.buf| == |r.next| > 0 && r.toGet < |r.own| && r.dma < |r.own|
    && IsChain(r.next)
    && (forall i :: 0 <= i < |r.buf| ==> |r.buf[i].bytes| >= CRC)
  }

  /** A frame that finds no descriptor is dropped by the hardware: it never arrives. */
  predicate Enabled(r: Rx, a: Action)
    requires Sound(r)
  {
    match a
    case Receive(frame) => r.own[r.dma] && |frame.bytes| >= CRC
    case Poll(_) => true
  }

  /** The pbuf one received frame becomes, if any. */
  function Payload(frame: Arrival, alloc: bool): seq<seq<int>>
    requires |frame.bytes| >= CRC
  {
    if frame.good && alloc then [frame.bytes[..|frame.bytes| - CRC]] else []
  }

  function Next(r: Rx, a: Action): Rx
    requires Sound(r) && Enabled(r, a)
  {
    match a
    case Receive(frame) =>
      r.(own := r.own[r.dma := false], buf := r.buf[r.dma := frame], dma := r.next[r.dma],
         filled := r.filled + 1, arrived := r.arrived + [frame])
    case Poll(alloc) =>
      if r.own[r.toGet] then r
      else
        r.(delivered := r.delivered + Payload(r.buf[r.toGet], alloc), own := r.own[r.toGet := true],
           toGet := r.next[r.toGet], filled := if r.filled > 0 then r.filled - 1 else 0,
           allocs := r.allocs + [alloc])
  }

  predicate Initial(r: Rx) {
    && Sound(r) && (forall i :: 0 <= i < |r.own| ==> r.own[i])
    && r == Rx(r.own, r.buf, r.next, 0, 0, 0, [], [], [])
  }

  ghost predicate Run(states: seq<Rx>, actions: seq<Action>) {
    && |states| == |actions| + 1
    && Initial(states[0])
    && forall i | 0 <= i < |actions| ::
         Sound(states[i]) && Enabled(states[i], actions[i]) && states[i + 1] == Next(states[i], actions[i])
  }

  /* The invariant. */

  predicate CpuOwnsAt(own: seq<bool>, get: nat, filled: nat, k: int)
    requires get < |own| && 0 <= k < |own|
  {
    own[Wrap(|own|, get + k)] <==> k >= filled
  }

  /** The driver's descriptors are one cyclic interval from DMARxDescToGet to the DMA's position. */
  predicate Interval(r: Rx)
    requires Sound(r)
  {
    && r.filled <= |r.own|
    && r.dma == Wrap(|r.own|, r.toGet + r.filled)
    && (forall k :: 0 <= k < |r.own| ==> CpuOwnsAt(r.own, r.toGet, r.filled, k))
  }

  /** The good frames among the first that arrived, without their CRC, as far as their allocations succeeded. */
  function Delivered(arrived: seq<Arrival>, allocs: seq<bool>): seq<seq<int>>
    requires |allocs| <= |arrived| && forall i :: 0 <= i < |arrived| ==> |arrived[i].bytes| >= CRC
  {
    if allocs == [] then []
    else
      var n := |allocs| - 1;
      var frame := arrived[n];
      Delivered(arrived, allocs[..n]) + (if frame.good && allocs[n] then [frame.bytes[..|frame.bytes| - 4]] else [])
  }

  predicate InOrder(r: Rx)
    requires Sound(r)
  {
    && r.filled <= |r.own|
    && |r.arrived| == |r.allocs| + r.filled
    && (forall i :: 0 <= i < |r.arrived| ==> |r.arrived[i].bytes| >= CRC)
    && r.arrived[|r.allocs|..] == Content(r.buf, r.toGet, r.filled)
    && r.delivered == Delivered(r.arrived, r.allocs)
  }

  predicate Inv(r: Rx) {
    Sound(r) && Interval(r) && InOrder(r)
  }

  lemma GetIsFilled(r: Rx)
    requires Sound(r) && Interval(r)
    ensures r.own[r.toGet] <==> r.filled == 0
    ensures r.own[r.dma] <==> r.filled < |r.own|
  {
    assert CpuOwnsAt(r.own, r.toGet, r.filled, 0);
    if r.filled < |r.own| {
      assert CpuOwnsAt(r.own, r.toGet, r.filled, r.filled);
    }
  }

  lemma {:induction false} DeliveredKeeps(arrived: seq<Arrival>, more: seq<Arrival>, allocs: seq<bool>)
    requires |allocs| <= |arrived| && forall i :: 0 <= i < |arrived| ==> |arrived[i].bytes| >= CRC
    requires forall i :: 0 <= i < |more| ==> |more[i].bytes| >= CRC
    ensures Delivered(arrived + more, allocs) == Delivered(arrived, allocs)
    decreases |allocs|
  {
    if allocs != [] {
      DeliveredKeeps(arrived, more, allocs[..|allocs| - 1]);
    }
  }

  lemma ReceiveInv(r: Rx, frame: Arrival)
    requires Inv(r) && Enabled(r, Receive(frame))
    ensures Inv(Next(r, Receive(frame)))
  {
    hide Content, Delivered;
    GetIsFilled(r);
    NextIsWrap(r.next, r.dma);
    var u, n := Next(r, Receive(frame)), |r.own|;
    forall k | 0 <= k < n ensures CpuOwnsAt(u.own, u.toGet, u.filled, k) {
      assert CpuOwnsAt(r.own, r.toGet, r.filled, k);
    }
    PushBack(r.buf, r.toGet, r.filled, frame);
    DeliveredKeeps(r.arrived, [frame], r.allocs);
  }

  lemma PollInv(r: Rx, alloc: bool)
    requires Inv(r)
    ensures Inv(Next(r, Poll(alloc)))
  {
    hide Content;
    GetIsFilled(r);
    if !r.own[r.toGet] {
      NextIsWrap(r.next, r.toGet);
      var u, n := Next(r, Poll(alloc)), |r.own|;
      forall k | 0 <= k < n ensures CpuOwnsAt(u.own, u.toGet, u.filled, k) {
        if k < n - 1 {
          assert CpuOwnsAt(r.own, r.toGet, r.filled, k + 1);
        }
      }
      PopFront(r.buf, r.toGet, r.filled);
      assert r.arrived[|r.allocs|] == r.arrived[|r.allocs|..][0];
      assert u.allocs[..|r.allocs|] == r.allocs;
    }
  }

  lemma {:induction false} RunInv(states: seq<Rx>, actions: seq<Action>, i: nat)
    requires Run(states, actions) && i < |states|
    ensures Inv(states[i]) && |states[i].own| == |states[0].own|
  {
    hide Inv, InOrder, Interval;
    if i == 0 {
      InitInv(states[0]);
    } else {
      RunInv(states, actions, i - 1);
      match actions[i - 1]
      case Receive(frame) => ReceiveInv(states[i - 1], frame);
      case Poll(alloc) => PollInv(states[i - 1], alloc);
    }
  }

  lemma InitInv(r: Rx)
    requires Initial(r)
    ensures Inv(r)
  {
  }

  /**
   * In every run: the descriptors the DMA may write to are exactly those not waiting for the driver, so none is
   * armed twice or forgotten; and what was delivered is, in arrival order, the good frames among those taken.
   */
  lemma FramesInOrder(states: seq<Rx>, actions: seq<Action>, i: nat, k: nat)
    requires Run(states, actions) && i < |states| && k < |states[0].own|
    ensures var r := states[i];
            && Sound(r) && r.filled <= |r.own| && |r.own| == |states[0].own|
            && (r.own[(r.toGet + k) % |r.own|] <==> k >= r.filled)
            && |r.arrived| == |r.allocs| + r.filled
            && (forall j :: 0 <= j < |r.arrived| ==> |r.arrived[j].bytes| >= CRC)
            && r.delivered == Delivered(r.arrived, r.allocs)
  {
    RunInv(states, actions, i);
    var r := states[i];
    WrapIsMod(|r.own|, r.toGet + k);
    assert CpuOwnsAt(r.own, r.toGet, r.filled, k);
  }

  /** A poll returns nothing exactly when no frame is waiting, and otherwise the oldest frame that is. */
  lemma PollTakesOldest(states: seq<Rx>, actions: seq<Action>, i: nat, alloc: bool)
    requires Run(states, actions) && i < |states|
    ensures var r := states[i];
            && Sound(r) && |r.allocs| <= |r.arrived|
            && (r.own[r.toGet] <==> |r.arrived| == |r.allocs|)
            && (|r.allocs| < |r.arrived| ==> r.buf[r.toGet] == r.arrived[|r.allocs|])
            && Next(r, Poll(alloc)).own[r.toGet]
  {
    RunInv(states, actions, i);
    var r := states[i];
    GetIsFilled(r);
    if r.filled > 0 {
      PopFront(r.buf, r.toGet, r.filled);
      assert r.arrived[|r.allocs|] == r.arrived[|r.allocs|..][0];
    }
  }

  /** What one poll delivers in a run: the oldest frame waiting without its four CRC bytes, if it is good. */
  lemma PollDelivers(states: seq<Rx>, actions: seq<Action>, i: nat, alloc: bool)
    requires Run(states, actions) && i < |states|
    ensures var r := states[i];
            && Sound(r) && |r.allocs| <= |r.arrived|
            && (forall j :: 0 <= j < |r.arrived| ==> |r.arrived[j].bytes| >= 4)
            && Next(r, Poll(alloc)).delivered ==
               if |r.allocs| == |r.arrived| then r.delivered
               else
                 var f := r.arrived[|r.allocs|];
                 r.delivered + if f.good && alloc then [f.bytes[..|f.bytes| - 4]] else []
  {
    RunInv(states, actions, i);
    PollTakesOldest(states, actions, i, alloc);
  }
}
