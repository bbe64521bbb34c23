/** The receive ring of the serial driver: the interrupt stores bytes and drops the oldest when the ring is full. */
module UartRx {
  import opened Ring

  const UART_RX_BUFFER_SIZE := 64

  /** received and taken are history: every byte stored, and for every byte read its place in received. */
  datatype Rx = Rx(buffer: seq<int>, read: nat, save: nat, received: seq<int>, taken: seq<nat>)

  predicate Sound(r: Rx) {
    |r.buffer| == UART_RX_BUFFER_SIZE && r.read < UART_RX_BUFFER_SIZE && r.save < UART_RX_BUFFER_SIZE
  }

  function Following(index: nat): nat {
    if index + 1 >= UART_RX_BUFFER_SIZE then 0 else index + 1
  }

  /** The length rt_hw_serial_isr reports to rx_indicate. */
  function Count(r: Rx): (n: nat)
    requires Sound(r)
    ensures n < UART_RX_BUFFER_SIZE
  {
    if r.read > r.save then UART_RX_BUFFER_SIZE - r.read + r.save else r.save - r.read
  }

  function Queue(r: Rx): (q: seq<int>)
    requires Sound(r)
    ensures |q| == Count(r)
  {
    Content(r.buffer, r.read, Count(r))
  }

  /** One byte in the interrupt's loop. */
  function Store(r: Rx, byte: int): Rx
    requires Sound(r)
  {
    var save := Following(r.save);
    r.(buffer := r.buffer[r.save := byte], save := save, received := r.received + [byte],
       read := if save == r.read then Following(r.read) else r.read)
  }

  /** One byte in rt_serial_read's loop; the ring is not empty. */
  function Take(r: Rx): Rx
    requires Sound(r)
  {
    r.(read := Following(r.read), taken := r.taken + [if Count(r) <= |r.received| then |r.received| - Count(r) else 0])
  }

  /** The last n of the elements, or all if there are fewer. */
  function Last(s: seq<int>, n: nat): seq<int> {
    if |s| <= n then s else s[|s| - n..]
  }

  /** Storing keeps the newest 63 bytes. */
  lemma StoreKeepsNewest(r: Rx, byte: int)
    requires Sound(r)
    ensures Sound(Store(r, byte))
    ensures Queue(Store(r, byte)) == Last(Queue(r) + [byte], UART_RX_BUFFER_SIZE - 1)
  {
    hide Content;
    var grown := r.(buffer := r.buffer[r.save := byte]);
    PushBack(r.buffer, r.read, Count(r), byte);
    if Following(r.save) == r.read {
      PopFront(grown.buffer, r.read, UART_RX_BUFFER_SIZE);
    }
  }

  lemma TakeIsOldest(r: Rx)
    requires Sound(r) && r.read != r.save
    ensures Sound(Take(r)) && Queue(r) == [r.buffer[r.read]] + Queue(Take(r))
  {
    hide Content;
    PopFront(r.buffer, r.read, Count(r));
  }

  function StoreAll(r: Rx, bytes: seq<int>): Rx
    requires Sound(r)
    decreases |bytes|
  {
    if bytes == [] then r
    else
      StoreKeepsNewest(r, bytes[0]);
      StoreAll(Store(r, bytes[0]), bytes[1..])
  }

  /** A burst of any length leaves the newest 63 bytes, in order. */
  lemma {:induction false} BurstKeepsNewest(r: Rx, bytes: seq<int>)
    requires Sound(r)
    ensures Sound(StoreAll(r, bytes))
    ensures Queue(StoreAll(r, bytes)) == Last(Queue(r) + bytes, UART_RX_BUFFER_SIZE - 1)
    decreases |bytes|
  {
    hide Queue, Store;
    if bytes == [] {
      assert Queue(r) + bytes == Queue(r);
    } else {
      StoreKeepsNewest(r, bytes[0]);
      BurstKeepsNewest(Store(r, bytes[0]), bytes[1..]);
      LastTwice(Queue(r), bytes);
    }
  }

  lemma LastTwice(q: seq<int>, bytes: seq<int>)
    requires bytes != []
    ensures Last(Last(q + [bytes[0]], UART_RX_BUFFER_SIZE - 1) + bytes[1..], UART_RX_BUFFER_SIZE - 1) ==
            Last(q + bytes, UART_RX_BUFFER_SIZE - 1)
  {
    hide Last;
    assert q + bytes == (q + [bytes[0]]) + bytes[1..];
    LastOfLast(q + [bytes[0]], bytes[1..], UART_RX_BUFFER_SIZE - 1);
  }

  lemma LastOfLast(s: seq<int>, t: seq<int>, n: nat)
    ensures Last(Last(s, n) + t, n) == Last(s + t, n)
  {
    if |s| > n {
      var cut := |s| - n;
      assert (s + t)[cut..] == s[cut..] + t;
      assert (s + t)[cut..][|t|..] == (s + t)[cut + |t|..];
    }
  }

  /* Reads and interrupts interleaved. */

  datatype Action = StoreByte(byte: int) | TakeByte

  predicate Enabled(r: Rx, a: Action) {
    a == TakeByte ==> r.read != r.save
  }

  function Next(r: Rx, a: Action): Rx
    requires Sound(r)
  {
    match a
    case StoreByte(byte) => Store(r, byte)
    case TakeByte => Take(r)
  }

  ghost predicate Run(states: seq<Rx>, actions: seq<Action>) {
    && |states| == |actions| + 1
    && Sound(states[0]) && states[0] == Rx(states[0].buffer, 0, 0, [], [])
    && forall i | 0 <= i < |actions| ::
         Sound(states[i]) && Enabled(states[i], actions[i]) && states[i + 1] == Next(states[i], actions[i])
  }

  /** The queue is the end of what was received; the places read lie before it, each after the one before. */
  predicate Inv(r: Rx) {
    && Sound(r)
    && Count(r) <= |r.received|
    && Queue(r) == r.received[|r.received| - Count(r)..]
    && (forall i, j :: 0 <= i < j < |r.taken| ==> r.taken[i] < r.taken[j])
    && (forall i :: 0 <= i < |r.taken| ==> r.taken[i] < |r.received| - Count(r))
  }

  lemma NextInv(r: Rx, a: Action)
    requires Inv(r) && Enabled(r, a)
    ensures Inv(Next(r, a))
    ensures a == TakeByte ==>
              Next(r, a).taken == r.taken + [|r.received| - Count(r)]
              && r.buffer[r.read] == r.received[|r.received| - Count(r)]
  {
    hide Content;
    match a
    case StoreByte(byte) => StoreKeepsNewest(r, byte);
    case TakeByte => TakeIsOldest(r);
  }

  /**
   * In every interleaving the ring holds the newest bytes received, and reads take received bytes in order,
   * none twice: bytes are only ever lost from the old end.
   */
  lemma {:induction false} ReadsInOrder(states: seq<Rx>, actions: seq<Action>, i: nat)
    requires Run(states, actions) && i < |states|
    ensures Inv(states[i])
  {
    if i > 0 {
      hide Next, Enabled, Inv;
      ReadsInOrder(states, actions, i - 1);
      NextInv(states[i - 1], actions[i - 1]);
    }
  }

  /** The driver's fields in place. */
  class RxRing {
    const rxBuffer: array<int>
    var readIndex: nat
    var saveIndex: nat
    ghost var received: seq<int>
    ghost var taken: seq<nat>

    ghost predicate Valid()
      reads this, rxBuffer
    {
      Inv(Abs())
    }

    ghost function Abs(): Rx
      reads this, rxBuffer
    {
      Rx(rxBuffer[..], readIndex, saveIndex, received, taken)
    }

    constructor ()
      ensures Valid() && fresh(rxBuffer) && Queue(Abs()) == []
    {
      rxBuffer := new int[UART_RX_BUFFER_SIZE];
      readIndex, saveIndex, received, taken := 0, 0, [], [];
    }

    /** The body of the interrupt's loop. */
    method StoreByte(byte: int)
      requires Valid()
      modifies this`readIndex, this`saveIndex, this`received, rxBuffer
      ensures Valid() && Abs() == Store(old(Abs()), byte)
    {
      hide Queue, Count;
      NextInv(Abs(), Action.StoreByte(byte));
      rxBuffer[saveIndex] := byte;
      saveIndex := saveIndex + 1;
      if saveIndex >= UART_RX_BUFFER_SIZE {
        saveIndex := 0;
      }
      if saveIndex == readIndex {
        readIndex := readIndex + 1;
        if readIndex >= UART_RX_BUFFER_SIZE {
          readIndex := 0;
        }
      }
      received := received + [byte];
    }

    /** The body of the read loop, with a byte there. */
    method TakeByte() returns (byte: int)
      requires Valid() && readIndex != saveIndex
      modifies this`readIndex, this`taken
      ensures Valid() && Abs() == Take(old(Abs()))
      ensures [byte] + Queue(Abs()) == old(Queue(Abs()))
    {
      hide Queue, Count;
      NextInv(Abs(), Action.TakeByte);
      TakeIsOldest(Abs());
      byte := rxBuffer[readIndex];
      taken := Take(Abs()).taken;
      readIndex := readIndex + 1;
      if readIndex >= UART_RX_BUFFER_SIZE {
        readIndex := 0;
      }
    }

    /** rt_serial_read, interrupt mode, when no interrupt comes between: the oldest bytes, as many as there are. */
    method Read(dst: array<int>, size: nat) returns (count: nat)
      requires Valid() && size <= dst.Length && dst != rxBuffer
      modifies this`readIndex, this`taken, dst
      ensures Valid() && count <= size && (count < size ==> Queue(Abs()) == [])
      ensures dst[..count] + Queue(Abs()) == old(Queue(Abs()))
    {
      hide Content;
      count := 0;
      while count < size
        invariant Valid() && count <= size
        invariant dst[..count] + Queue(Abs()) == old(Queue(Abs()))
        decreases size - count
      {
        if readIndex == saveIndex {
          return;
        }
        ghost var before := dst[..count];
        var byte := TakeByte();
        dst[count] := byte;
        count := count + 1;
        Shift(before, byte, Queue(Abs()));
        assert dst[..count] == before + [byte];
      }
    }
  }

  lemma Shift(before: seq<int>, byte: int, q: seq<int>)
    ensures (before + [byte]) + q == before + ([byte] + q)
  {
  }
}
