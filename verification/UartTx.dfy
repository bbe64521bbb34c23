/** The DMA transmit list of the serial driver: writers append nodes, the completion interrupt removes the head. */
module UartTx {

  const NODE_COUNT := 4

  datatype Dma = Off | On(ptr: nat, size: nat)

  /** A pointer to a node of the memory pool. */
  datatype Link = Null | To(node: nat)

  datatype DataNode = DataNode(ptr: nat, size: nat, next: Link, prev: Link)

  /** The driver's memory: the nodes of the pool, the two ends of the list, the DMA stream. */
  datatype Tx = Tx(mem: seq<DataNode>, head: Link, tail: Link, stream: Dma)

  predicate InPool(l: Link) {
    l.To? ==> l.node < NODE_COUNT
  }

  predicate Sound(t: Tx) {
    && |t.mem| == NODE_COUNT && InPool(t.head) && InPool(t.tail)
    && forall i :: 0 <= i < NODE_COUNT ==> InPool(t.mem[i].next)
  }

  /** rt_serial_write once it has a node: fill it, then link it in with interrupts masked. */
  function Insert(t: Tx, node: nat, ptr: nat, size: nat): Tx
    requires Sound(t) && node < NODE_COUNT
  {
    var mem := t.mem[node := DataNode(ptr, size, Null, t.tail)];
    var linked := if t.tail.To? then mem[t.tail.node := mem[t.tail.node].(next := To(node))] else mem;
    if t.head.Null? then Tx(linked, To(node), To(node), On(ptr, size)) else Tx(linked, t.head, To(node), t.stream)
  }

  /** rt_hw_serial_dma_tx_isr */
  function Complete(t: Tx): Tx
    requires Sound(t) && t.head.To?
  {
    var next := t.mem[t.head.node].next;
    match next
    case Null => t.(head := Null, tail := Null, stream := Off)
    case To(n) => t.(head := next, stream := On(t.mem[n].ptr, t.mem[n].size))
  }

  /** The nodes next leads to from l, at most k of them. */
  function Walk(mem: seq<DataNode>, l: Link, k: nat): seq<nat>
    decreases k
  {
    if l.Null? || k == 0 || l.node >= |mem| then [] else [l.node] + Walk(mem, mem[l.node].next, k - 1)
  }

  /* The list structure. */

  predicate Distinct(list: seq<nat>) {
    forall i, j :: 0 <= i < j < |list| ==> list[i] != list[j]
  }

  predicate Within(list: seq<nat>) {
    forall i :: 0 <= i < |list| ==> list[i] < NODE_COUNT
  }

  function First(list: seq<nat>): Link {
    if list == [] then Null else To(list[0])
  }

  function Last(list: seq<nat>): Link {
    if list == [] then Null else To(list[|list| - 1])
  }

  /** The i-th node's next is the node after it, or null at the end; its prev is the node before it. */
  predicate Chained(mem: seq<DataNode>, list: seq<nat>, i: int)
    requires |mem| == NODE_COUNT && Within(list) && 0 <= i < |list|
  {
    && mem[list[i]].next == (if i + 1 < |list| then To(list[i + 1]) else Null)
    && (i > 0 ==> mem[list[i]].prev == To(list[i - 1]))
  }

  /** list is what the memory holds: next leads through it to tail and stops, prev leads back. */
  predicate Linked(t: Tx, list: seq<nat>) {
    && Sound(t) && Distinct(list) && Within(list)
    && t.head == First(list) && t.tail == Last(list)
    && (forall i :: 0 <= i < |list| ==> Chained(t.mem, list, i))
    && t.stream == (if list == [] then Off else On(t.mem[list[0]].ptr, t.mem[list[0]].size))
  }

  /** What a write gives the driver: where its bytes are, and how many. */
  datatype Buffer = Buffer(ptr: nat, size: nat)

  function Buffers(mem: seq<DataNode>, list: seq<nat>): seq<Buffer>
    requires forall i :: 0 <= i < |list| ==> list[i] < |mem|
  {
    seq(|list|, i requires 0 <= i < |list| => Buffer(mem[list[i]].ptr, mem[list[i]].size))
  }

  /** A write puts its node behind the others and leaves their order and buffers alone. */
  lemma InsertAppends(t: Tx, list: seq<nat>, node: nat, ptr: nat, size: nat)
    requires Linked(t, list) && node < NODE_COUNT && node !in list
    ensures Linked(Insert(t, node, ptr, size), list + [node])
    ensures Buffers(Insert(t, node, ptr, size).mem, list + [node]) == Buffers(t.mem, list) + [Buffer(ptr, size)]
  {
    hide Chained;
    var u, longer := Insert(t, node, ptr, size), list + [node];
    forall i | 0 <= i < |longer| ensures Chained(u.mem, longer, i) {
      InsertChains(t, list, node, ptr, size, i);
    }
    forall i | 0 <= i < |list|
      ensures u.mem[list[i]].ptr == t.mem[list[i]].ptr && u.mem[list[i]].size == t.mem[list[i]].size
    {
    }
  }

  lemma InsertChains(t: Tx, list: seq<nat>, node: nat, ptr: nat, size: nat, i: nat)
    requires Linked(t, list) && node < NODE_COUNT && node !in list && i <= |list|
    ensures Chained(Insert(t, node, ptr, size).mem, list + [node], i)
  {
    if i < |list| {
      assert Chained(t.mem, list, i);
    }
  }

  /** The interrupt takes the first node off and leaves the others linked. */
  lemma CompletePops(t: Tx, list: seq<nat>)
    requires Linked(t, list) && list != []
    ensures Linked(Complete(t), list[1..])
    ensures Buffers(t.mem, list) ==
            [Buffer(t.mem[list[0]].ptr, t.mem[list[0]].size)] + Buffers(t.mem, list[1..])
  {
    hide Chained;
    forall i | 0 <= i < |list[1..]| ensures Chained(t.mem, list[1..], i) {
      ChainedRest(t.mem, list, i);
    }
    NextOfHead(t, list);
  }

  lemma ChainedRest(mem: seq<DataNode>, list: seq<nat>, i: nat)
    requires |mem| == NODE_COUNT && Within(list) && i + 1 < |list| && Chained(mem, list, i + 1)
    ensures Chained(mem, list[1..], i)
  {
  }

  lemma NextOfHead(t: Tx, list: seq<nat>)
    requires Linked(t, list) && list != []
    ensures t.mem[list[0]].next == First(list[1..])
  {
    assert Chained(t.mem, list, 0);
  }

  /** Following next from the head meets exactly the list and stops at the tail, whose next is null. */
  lemma WalkIsList(t: Tx, list: seq<nat>)
    requires Linked(t, list) && |list| <= NODE_COUNT
    ensures Walk(t.mem, t.head, NODE_COUNT) == list
    ensures t.head.Null? <==> t.tail.Null?
    ensures t.tail.To? ==> list != [] && t.tail.node == list[|list| - 1] && t.mem[t.tail.node].next == Null
    ensures t.stream.On? <==> t.head.To?
  {
    if list != [] {
      WalkFrom(t, list, 0, NODE_COUNT);
      assert Chained(t.mem, list, |list| - 1);
      assert list[0..] == list;
    }
  }

  lemma {:induction false} WalkFrom(t: Tx, list: seq<nat>, i: nat, k: nat)
    requires Linked(t, list) && i < |list| && |list| - i <= k
    ensures Walk(t.mem, To(list[i]), k) == list[i..]
    decreases k
  {
    assert Chained(t.mem, list, i);
    if i + 1 < |list| {
      WalkFrom(t, list, i + 1, k - 1);
      assert list[i..] == [list[i]] + list[i + 1..];
    } else {
      assert Walk(t.mem, Null, k - 1) == [];
    }
  }

  /* Writers and the interrupt over a run. */

  /** held: nodes allocated and not yet inserted. list, written and completed are history. */
  datatype System = System(
    tx: Tx, free: set<nat>, held: set<nat>, list: seq<nat>, written: seq<Buffer>, completed: seq<nat>)

  datatype Action = Allocate(node: nat) | Write(node: nat, ptr: nat, size: nat) | Interrupt

  /** rt_mp_alloc waits for a free node; the interrupt comes from a running stream. */
  predicate Enabled(s: System, a: Action) {
    match a
    case Allocate(node) => node in s.free
    case Write(node, _, _) => node in s.held
    case Interrupt => s.tx.stream.On?
  }

  /** What an action dereferences is there. */
  predicate Ready(s: System, a: Action) {
    && Sound(s.tx) && Enabled(s, a)
    && (a.Write? ==> a.node < NODE_COUNT)
    && (a.Interrupt? ==> s.tx.head.To? && s.list != [])
  }

  function Next(s: System, a: Action): System
    requires Ready(s, a)
  {
    match a
    case Allocate(node) => s.(free := s.free - {node}, held := s.held + {node})
    case Write(node, ptr, size) =>
      s.(tx := Insert(s.tx, node, ptr, size), held := s.held - {node}, list := s.list + [node],
         written := s.written + [Buffer(ptr, size)])
    case Interrupt =>
      var node := s.tx.head.node;
      s.(tx := Complete(s.tx), free := s.free + {node}, list := s.list[1..],
         completed := s.completed + [s.tx.mem[node].ptr])
  }

  predicate Initial(s: System) {
    && Linked(s.tx, []) && s == System(s.tx, {0, 1, 2, 3}, {}, [], [], [])
  }

  /** Runs take enabled actions; that the memory is ready for them is not required but proved. */
  ghost predicate Run(states: seq<System>, actions: seq<Action>) {
    && |states| == |actions| + 1
    && Initial(states[0])
    && forall i | 0 <= i < |actions| ::
         Enabled(states[i], actions[i]) &&
         (Ready(states[i], actions[i]) ==> states[i + 1] == Next(states[i], actions[i]))
  }

  function Members(list: seq<nat>): set<nat> {
    set i | 0 <= i < |list| :: list[i]
  }

  /** Each node is free, held or listed, and in one of the three only. */
  predicate Owned(free: set<nat>, held: set<nat>, list: seq<nat>) {
    && free + held + Members(list) == {0, 1, 2, 3}
    && free !! held && free !! Members(list) && held !! Members(list)
  }

  function Pointers(buffers: seq<Buffer>): seq<nat> {
    seq(|buffers|, i requires 0 <= i < |buffers| => buffers[i].ptr)
  }

  predicate Inv(s: System) {
    && Linked(s.tx, s.list) && Owned(s.free, s.held, s.list)
    && |s.written| == |s.completed| + |s.list|
    && s.completed == Pointers(s.written[..|s.completed|])
    && s.written[|s.completed|..] == Buffers(s.tx.mem, s.list)
  }

  lemma MembersAppend(list: seq<nat>, node: nat)
    ensures Members(list + [node]) == Members(list) + {node}
  {
    var longer := list + [node];
    assert longer[|list|] == node;
    forall x | x in Members(list) + {node} ensures x in Members(longer) {
      if x in Members(list) {
        var i :| 0 <= i < |list| && list[i] == x;
        assert longer[i] == x;
      }
    }
  }

  lemma MembersRest(list: seq<nat>)
    requires list != [] && Distinct(list)
    ensures Members(list) == {list[0]} + Members(list[1..]) && list[0] !in Members(list[1..])
  {
    assert list == [list[0]] + list[1..];
    forall x | x in Members(list) ensures x in {list[0]} + Members(list[1..]) {
      var i :| 0 <= i < |list| && list[i] == x;
      if i > 0 {
        assert list[1..][i - 1] == x;
      }
    }
    forall x | x in Members(list[1..]) ensures x in Members(list) {
      var i :| 0 <= i < |list[1..]| && list[1..][i] == x;
      assert list[i + 1] == x;
    }
  }

  lemma {:induction false} MembersCount(list: seq<nat>)
    requires Distinct(list)
    ensures |Members(list)| == |list|
  {
    if list != [] {
      MembersRest(list);
      MembersCount(list[1..]);
    }
  }

  lemma PoolTotal(free: set<nat>, held: set<nat>, list: seq<nat>)
    requires Owned(free, held, list) && Distinct(list)
    ensures |free| + |held| + |list| == NODE_COUNT
  {
    MembersCount(list);
    assert |free + held| == |free| + |held|;
    assert |free + held + Members(list)| == |free + held| + |Members(list)|;
    assert |{0, 1, 2, 3}| == 4;
  }

  /** What an action needs from the memory is always there. */
  lemma AlwaysReady(s: System, a: Action)
    requires Inv(s) && Enabled(s, a)
    ensures Ready(s, a)
  {
  }

  lemma WriteInv(s: System, a: Action)
    requires Inv(s) && Enabled(s, a) && a.Write? && Ready(s, a)
    ensures Inv(Next(s, a))
  {
    hide Linked, Members, Buffers;
    MembersAppend(s.list, a.node);
    NotListed(s, a.node);
    InsertAppends(s.tx, s.list, a.node, a.ptr, a.size);
  }

  lemma NotListed(s: System, node: nat)
    requires Owned(s.free, s.held, s.list) && node in s.held
    ensures node !in s.list
  {
    forall i | 0 <= i < |s.list| ensures s.list[i] in Members(s.list) {
    }
  }

  lemma InterruptInv(s: System)
    requires Inv(s) && Ready(s, Interrupt)
    ensures Inv(Next(s, Interrupt))
  {
    hide Members, Buffers, Chained;
    MembersRest(s.list);
    CompletePops(s.tx, s.list);
  }

  lemma NextInv(s: System, a: Action)
    requires Inv(s) && Ready(s, a)
    ensures Inv(Next(s, a))
  {
    hide Linked, Members, Buffers;
    match a
    case Allocate(_) =>
    case Write(_, _, _) => WriteInv(s, a);
    case Interrupt => InterruptInv(s);
  }

  lemma {:induction false} RunInv(states: seq<System>, actions: seq<Action>, i: nat)
    requires Run(states, actions) && i < |states|
    ensures Inv(states[i])
  {
    if i > 0 {
      hide Next, Enabled, Inv, Ready;
      RunInv(states, actions, i - 1);
      AlwaysReady(states[i - 1], actions[i - 1]);
      NextInv(states[i - 1], actions[i - 1]);
    } else {
      assert Members([]) == {};
    }
  }

  /**
   * In every interleaving: next from the head walks the nodes in write order and ends at the tail; head and
   * tail are null together; the stream is active exactly while the list is non-empty, on the buffer of the oldest
   * write not completed and with the length that was written;
   * the buffers completed are the first written, in order; and no node is ever lost or duplicated.
   */
  lemma ListIsQueue(states: seq<System>, actions: seq<Action>, i: nat)
    requires Run(states, actions) && i < |states|
    ensures Sound(states[i].tx)
    ensures Walk(states[i].tx.mem, states[i].tx.head, NODE_COUNT) == states[i].list
    ensures states[i].tx.tail == Last(states[i].list) && (states[i].tx.head.Null? <==> states[i].tx.tail.Null?)
    ensures |states[i].written| == |states[i].completed| + |states[i].list|
    ensures forall k :: 0 <= k < |states[i].completed| ==> states[i].completed[k] == states[i].written[k].ptr
    ensures states[i].tx.stream ==
            if states[i].list == [] then Off
            else var b := states[i].written[|states[i].completed|]; On(b.ptr, b.size)
    ensures |states[i].free| + |states[i].held| + |states[i].list| == 4
  {
    RunInv(states, actions, i);
    PoolTotal(states[i].free, states[i].held, states[i].list);
    WalkIsList(states[i].tx, states[i].list);
  }

  /** A writer waiting for a node gets one: the pool runs out only while nodes are held or being sent. */
  lemma NodesComeBack(states: seq<System>, actions: seq<Action>, i: nat)
    requires Run(states, actions) && i < |states|
    requires states[i].free == {} && states[i].held == {}
    ensures Ready(states[i], Interrupt) && Next(states[i], Interrupt).free != {}
  {
    RunInv(states, actions, i);
    PoolTotal(states[i].free, states[i].held, states[i].list);
  }

  /** The driver's fields in place; the nodes are the memory of the pool. */
  class TxList {
    const mem: array<DataNode>
    var listHead: Link
    var listTail: Link
    var stream: Dma

    ghost predicate Valid()
      reads this, mem
    {
      Sound(Abs())
    }

    ghost function Abs(): Tx
      reads this, mem
    {
      Tx(mem[..], listHead, listTail, stream)
    }

    /** rt_serial_init, DMA branch */
    constructor ()
      ensures Valid() && fresh(mem) && Linked(Abs(), [])
    {
      mem := new DataNode[NODE_COUNT](_ => DataNode(0, 0, Null, Null));
      listHead, listTail, stream := Null, Null, Off;
    }

    /** rt_serial_write after the allocation. What it returns is the advance of a pointer it never moves. */
    method InsertNode(node: nat, ptr: nat, size: nat) returns (result: nat)
      requires Valid() && node < NODE_COUNT
      modifies this, mem
      ensures Valid() && Abs() == Insert(old(Abs()), node, ptr, size)
      ensures result == 0
    {
      mem[node] := DataNode(ptr, size, Null, listTail);
      if listTail.To? {
        mem[listTail.node] := mem[listTail.node].(next := To(node));
      }
      listTail := To(node);
      if listHead.Null? {
        listHead := To(node);
        stream := On(mem[listHead.node].ptr, mem[listHead.node].size);
      }
      result := 0;
    }

    /** rt_hw_serial_dma_tx_isr. Returns the node to free and the buffer tx_complete is called with. */
    method CompletionIsr() returns (node: nat, buffer: nat)
      requires Valid() && listHead.To?
      modifies this
      ensures Valid() && Abs() == Complete(old(Abs()))
      ensures To(node) == old(listHead) && buffer == mem[node].ptr
    {
      node := listHead.node;
      buffer := mem[node].ptr;
      listHead := mem[node].next;
      if listHead.Null? {
        listTail := Null;
      }
      if listHead.To? {
        stream := On(mem[listHead.node].ptr, mem[listHead.node].size);
      } else {
        stream := Off;
      }
    }
  }
}
