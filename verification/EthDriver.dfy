/** The Ethernet driver's descriptor handling in place, proved against the two chain models. */
module EthDriver {
  import opened EthChain
  import opened Pieces
  import Tx = EthTx
  import Rx = EthRx

  const ETH_MAX_PACKET_SIZE := 1520

  /** The copy loop of rt_stm32_eth_tx: each pbuf's payload goes behind the one before it. */
  method CopyPbufs(chain: seq<seq<int>>, to: array<int>) returns (offset: nat)
    requires |Flatten(chain)| <= to.Length
    modifies to
    ensures offset == |Flatten(chain)| && to[..offset] == Flatten(chain)
  {
    offset := 0;
    var k := 0;
    while k < |chain|
      invariant k <= |chain| && offset == |Flatten(chain[..k])| <= to.Length
      invariant to[..offset] == Flatten(chain[..k])
    {
      assert chain[..k + 1][..k] == chain[..k];
      FlattenGrows(chain, k + 1);
      Store(to, offset, chain[k]);
      offset := offset + |chain[k]|;
      k := k + 1;
    }
    assert chain[..|chain|] == chain;
  }

  /** Transmit side: the descriptors, DMATxDescToSet, tx_is_waiting and tx_wait, and the DMA's own position. */
  class TxChain {
    const own: array<bool>
    const frames: array<Tx.Frame>
    const next: array<nat>
    var toSet: nat
    var dma: nat
    var isWaiting: bool
    var wait: nat
    var pending: bool
    ghost var writer: Tx.Writer
    ghost var submitted: seq<Tx.Frame>
    ghost var sent: seq<Tx.Frame>
    ghost var queued: nat

    ghost predicate Valid()
      reads this, own, frames, next
    {
      Tx.Inv(Abs())
    }

    ghost function Abs(): Tx.Tx
      reads this, own, frames, next
    {
      Tx.Tx(own[..], frames[..], next[..], toSet, dma, isWaiting, wait, pending, writer, submitted, sent, queued)
    }

    /** ETH_DMATxDescChainInit */
    constructor (count: nat)
      requires count > 0
      ensures Valid() && Tx.Initial(Abs()) && own.Length == count
      ensures fresh(own) && fresh(frames) && fresh(next)
    {
      own := new bool[count];
      frames := new Tx.Frame[count];
      next := new nat[count];
      toSet, dma, isWaiting, wait, pending := 0, 0, false, 0, false;
      writer, submitted, sent, queued := Tx.Idle, [], [], 0;
      new;
      LinkChain(next, own, false);
      Tx.InitInv(Abs());
    }

    /** The OWN test of rt_stm32_eth_tx. */
    method TestOwn(ghost frame: Tx.Frame) returns (busy: bool)
      requires Valid() && writer == Tx.Idle && !pending
      modifies this`writer, this`submitted
      ensures Valid() && Abs() == Tx.Next(old(Abs()), Tx.Submit(frame))
      ensures busy <==> writer.Tested?
    {
      Tx.NextInv(Abs(), Tx.Submit(frame));
      busy := own[toSet];
      writer := if busy then Tx.Tested(frame) else Tx.Filling(frame);
      submitted := submitted + [frame];
    }

    /** The flag raised with interrupts masked, before the driver waits for its semaphore. */
    method RaiseFlag()
      requires Valid() && writer.Tested? && !pending
      modifies this`isWaiting, this`writer
      ensures Valid() && Abs() == Tx.Next(old(Abs()), Tx.Sleep)
    {
      Tx.NextInv(Abs(), Tx.Sleep);
      isWaiting := true;
      writer := Tx.Waiting(writer.frame);
    }

    /** The rest of rt_stm32_eth_tx: copy the frame, hand it over and move on along the chain. */
    method HandOver(chain: seq<seq<int>>)
      requires |Flatten(chain)| <= ETH_MAX_PACKET_SIZE
      requires Valid() && writer == Tx.Filling(Flatten(chain)) && !pending
      modifies this`toSet, this`writer, this`queued, own, frames
      ensures Valid() && Abs() == Tx.Next(old(Abs()), Tx.Fill)
      ensures !old(own[toSet]) && own[old(toSet)]
    {
      Tx.NextInv(Abs(), Tx.Fill);
      Tx.SetIsFree(Abs());
      var packet := new int[ETH_MAX_PACKET_SIZE];
      var length := CopyPbufs(chain, packet);
      frames[toSet] := packet[..length];
      own[toSet] := true;
      toSet := next[toSet];
      writer := Tx.Idle;
      queued := queued + 1;
    }

    /** The transmit branch of ETH_IRQHandler. */
    method TransmitIsr()
      requires Valid() && pending
      modifies this`pending, this`isWaiting, this`wait
      ensures Valid() && Abs() == Tx.Next(old(Abs()), Tx.Isr)
    {
      Tx.NextInv(Abs(), Tx.Isr);
      pending := false;
      if isWaiting {
        isWaiting := false;
        wait := wait + 1;
      }
    }
  }

  /** Receive side: the descriptors, DMARxDescToGet, and the DMA's own position. */
  class RxChain {
    const own: array<bool>
    const frames: array<Rx.Arrival>
    const next: array<nat>
    var toGet: nat
    var dma: nat
    ghost var filled: nat
    ghost var arrived: seq<Rx.Arrival>
    ghost var allocs: seq<bool>
    ghost var delivered: seq<seq<int>>

    ghost predicate Valid()
      reads this, own, frames, next
    {
      Rx.Inv(Abs())
    }

    ghost function Abs(): Rx.Rx
      reads this, own, frames, next
    {
      Rx.Rx(own[..], frames[..], next[..], toGet, dma, filled, arrived, allocs, delivered)
    }

    /** ETH_DMARxDescChainInit */
    constructor (count: nat)
      requires count > 0
      ensures Valid() && Rx.Initial(Abs()) && own.Length == count
      ensures fresh(own) && fresh(frames) && fresh(next)
    {
      own := new bool[count];
      frames := new Rx.Arrival[count](_ => Rx.Arrival([0, 0, 0, 0], false));
      next := new nat[count];
      toGet, dma := 0, 0;
      filled, arrived, allocs, delivered := 0, [], [], [];
      new;
      LinkChain(next, own, true);
      Rx.InitInv(Abs());
    }

    /** rt_stm32_eth_rx. alloc says whether pbuf_alloc succeeds. Returns the pbuf's bytes, or nothing. */
    method Poll(alloc: bool) returns (pbuf: seq<seq<int>>)
      requires Valid()
      modifies this`toGet, this`filled, this`allocs, this`delivered, own
      ensures Valid() && Abs() == Rx.Next(old(Abs()), Rx.Poll(alloc))
      ensures delivered == old(delivered) + pbuf
      ensures |frames[old(toGet)].bytes| >= 4
      ensures pbuf == (var f := frames[old(toGet)];
                       if !old(own[toGet]) && f.good && alloc then [f.bytes[..|f.bytes| - 4]] else [])
      ensures own[old(toGet)]
    {
      hide Rx.Delivered, Rx.CpuOwnsAt;
      Rx.PollInv(Abs(), alloc);
      Rx.GetIsFilled(Abs());
      pbuf := [];
      if own[toGet] {
        return;
      }
      if frames[toGet].good {
        var length := |frames[toGet].bytes| - Rx.CRC;
        if alloc {
          pbuf := [frames[toGet].bytes[..length]];
        }
      }
      own[toGet] := true;
      toGet := next[toGet];
      filled := filled - 1;
      allocs := allocs + [alloc];
      delivered := delivered + pbuf;
    }
  }
}
