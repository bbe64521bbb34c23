/**
 * The transmit descriptor chain of the Ethernet driver. The driver fills the descriptor at DMATxDescToSet and
 * hands it over with its OWN bit; the DMA sends from its own position on and clears the bit again.
 */
module EthTx {
  import opened EthChain
  import opened Ring

  type Frame = seq<int>

  /** Tested: the driver has seen the OWN bit set and not yet raised its flag. */
  datatype Writer = Idle | Tested(frame: Frame) | Waiting(frame: Frame) | Filling(frame: Frame)

  /**
   * own, buf and next are the descriptors' OWN bits, frames and next pointers, toSet is DMATxDescToSet, dma the
   * DMA's position, pending the transmit interrupt not yet served, wait the count of tx_wait.
   * submitted, sent and queued are history.
   */
  datatype Tx = Tx(
    own: seq<bool>, buf: seq<Frame>, next: seq<nat>, toSet: nat, dma: nat,
    flag: bool, wait: nat, pending: bool, writer: Writer,
    submitted: seq<Frame>, sent: seq<Frame>, queued: nat)

  predicate Sound(t: Tx) {
    && |t.own| == |t.buf| == |t.next| > 0 && t.toSet < |t.own| && t.dma < |t.own|
    && IsChain(t.next)
  }

  datatype Action = Submit(frame: Frame) | Sleep | TakeWait | Fill | DmaSend | Isr

  /** The interrupt preempts the driver: while one is pending, no thread runs. */
  predicate Prompt(t: Tx, a: Action) {
    t.pending ==> a == DmaSend || a == Isr
  }

  predicate Enabled(t: Tx, a: Action)
    requires Sound(t)
  {
    match a
    case Submit(_) => t.writer == Idle
    case Sleep => t.writer.Tested?
    case TakeWait => t.writer.Waiting? && t.wait > 0
    case Fill => t.writer.Filling?
    case DmaSend => t.own[t.dma]
    case Isr => t.pending
  }

  function Next(t: Tx, a: Action): Tx
    requires Sound(t) && Enabled(t, a)
  {
    match a
    case Submit(frame) =>
      t.(writer := if t.own[t.toSet] then Tested(frame) else Filling(frame), submitted := t.submitted + [frame])
    case Sleep => t.(flag := true, writer := Waiting(t.writer.frame))
    case TakeWait => t.(wait := t.wait - 1, writer := Filling(t.writer.frame))
    case Fill =>
      t.(buf := t.buf[t.toSet := t.writer.frame], own := t.own[t.toSet := true], toSet := t.next[t.toSet],
         writer := Idle, queued := t.queued + 1)
    case DmaSend =>
      t.(own := t.own[t.dma := false], dma := t.next[t.dma], pending := true,
         sent := t.sent + [t.buf[t.dma]], queued := if t.queued > 0 then t.queued - 1 else 0)
    case Isr =>
      if t.flag then t.(pending := false, flag := false, wait := t.wait + 1) else t.(pending := false)
  }

  predicate Initial(t: Tx) {
    && Sound(t) && t.toSet == t.dma == 0 && (forall i :: 0 <= i < |t.own| ==> !t.own[i])
    && t == Tx(t.own, t.buf, t.next, 0, 0, false, 0, false, Idle, [], [], 0)
  }

  /** prompt: the interrupt preempts the driver in this run. */
  ghost predicate Run(prompt: bool, states: seq<Tx>, actions: seq<Action>) {
    && |states| == |actions| + 1
    && Initial(states[0])
    && forall i | 0 <= i < |actions| ::
         Sound(states[i]) && Enabled(states[i], actions[i]) && (prompt ==> Prompt(states[i], actions[i]))
         && states[i + 1] == Next(states[i], actions[i])
  }

  /* The invariant. */

  /** The k-th descriptor from the DMA's position on is the DMA's exactly when it is queued. */
  predicate OwnsAt(own: seq<bool>, dma: nat, queued: nat, k: int)
    requires dma < |own| && 0 <= k < |own|
  {
    own[Wrap(|own|, dma + k)] <==> k < queued
  }

  /** Exactly the queued descriptors, from the DMA's position on, belong to the DMA; toSet is the one after them. */
  predicate Interval(t: Tx)
    requires Sound(t)
  {
    && t.queued <= |t.own|
    && t.toSet == Wrap(|t.own|, t.dma + t.queued)
    && (forall k :: 0 <= k < |t.own| ==> OwnsAt(t.own, t.dma, t.queued, k))
  }

  /** The frame of the call under way. */
  function InHand(w: Writer): seq<Frame> {
    match w
    case Idle => []
    case Tested(frame) => [frame]
    case Waiting(frame) => [frame]
    case Filling(frame) => [frame]
  }

  /** The frames in those descriptors are, before the one in hand, the ones submitted and not yet sent. */
  predicate Queued(t: Tx)
    requires Sound(t)
  {
    t.queued <= |t.own| && t.submitted == t.sent + Content(t.buf, t.dma, t.queued) + InHand(t.writer)
  }

  /** A waiting writer has its flag up or its token, and the token only once there is a free descriptor. */
  predicate Woken(t: Tx)
    requires Sound(t)
  {
    && t.wait + (if t.flag then 1 else 0) == (if t.writer.Waiting? then 1 else 0)
    && (t.writer.Filling? || t.wait > 0 ==> t.queued < |t.own|)
    && (t.flag && t.pending ==> t.queued < |t.own|)
  }

  predicate Inv(t: Tx) {
    Sound(t) && Interval(t) && Queued(t) && Woken(t)
  }

  lemma InitInv(t: Tx)
    requires Initial(t)
    ensures Inv(t)
  {
  }

  lemma SetIsFree(t: Tx)
    requires Sound(t) && Interval(t)
    ensures t.own[t.toSet] <==> t.queued == |t.own|
    ensures t.own[t.dma] <==> t.queued > 0
  {
    assert OwnsAt(t.own, t.dma, t.queued, 0);
    if t.queued < |t.own| {
      assert OwnsAt(t.own, t.dma, t.queued, t.queued);
    }
  }

  lemma FillInterval(t: Tx)
    requires Sound(t) && Interval(t) && t.writer.Filling? && t.queued < |t.own|
    ensures Sound(Next(t, Fill)) && Interval(Next(t, Fill))
  {
    NextIsWrap(t.next, t.toSet);
    var u, n := Next(t, Fill), |t.own|;
    forall k | 0 <= k < n ensures OwnsAt(u.own, u.dma, u.queued, k) {
      assert OwnsAt(t.own, t.dma, t.queued, k);
    }
  }

  lemma SendInterval(t: Tx)
    requires Sound(t) && Interval(t) && t.queued > 0 && Enabled(t, DmaSend)
    ensures Sound(Next(t, DmaSend)) && Interval(Next(t, DmaSend))
  {
    NextIsWrap(t.next, t.dma);
    var u, n := Next(t, DmaSend), |t.own|;
    forall k | 0 <= k < n ensures OwnsAt(u.own, u.dma, u.queued, k) {
      if k < n - 1 {
        assert OwnsAt(t.own, t.dma, t.queued, k + 1);
      }
    }
  }

  lemma NextInv(t: Tx, a: Action)
    requires Inv(t) && Enabled(t, a) && Prompt(t, a)
    ensures Inv(Next(t, a)) && |Next(t, a).own| == |t.own|
  {
    hide Content, Wrap;
    SetIsFree(t);
    match a
    case Fill =>
      FillInterval(t);
      PushBack(t.buf, t.dma, t.queued, t.writer.frame);
    case DmaSend =>
      SendInterval(t);
      NextIsWrap(t.next, t.dma);
      PopFront(t.buf, t.dma, t.queued);
      var c := Content(t.buf, t.dma, t.queued);
      assert t.sent + c + InHand(t.writer) == t.sent + [c[0]] + c[1..] + InHand(t.writer);
    case _ =>
  }

  /** The interrupt is served once, and gives the writer its token exactly when the writer asked for one. */
  lemma IsrServes(states: seq<Tx>, actions: seq<Action>, i: nat)
    requires Run(true, states, actions) && i < |actions| && actions[i] == Isr
    ensures var t, u := states[i], states[i + 1];
            && t.pending && !u.pending && !u.flag
            && u.wait == t.wait + (if t.flag then 1 else 0) && (t.flag ==> t.writer.Waiting?)
            && u == t.(pending := false, flag := false, wait := u.wait)
  {
    RunInv(states, actions, i);
  }

  lemma {:induction false} RunInv(states: seq<Tx>, actions: seq<Action>, i: nat)
    requires Run(true, states, actions) && i < |states|
    ensures Inv(states[i]) && |states[i].own| == |states[0].own|
  {
    hide Next, Enabled, Inv;
    if i == 0 {
      InitInv(states[0]);
    } else {
      RunInv(states, actions, i - 1);
      NextInv(states[i - 1], actions[i - 1]);
    }
  }

  /** The DMA's descriptors are one cyclic interval that ends at DMATxDescToSet, for any number of descriptors. */
  lemma OwnedIsInterval(states: seq<Tx>, actions: seq<Action>, i: nat, k: nat)
    requires Run(true, states, actions) && i < |states| && k < |states[0].own|
    ensures var t := states[i];
            && Sound(t) && |t.own| == |states[0].own| && t.queued <= |t.own|
            && (t.own[(t.dma + k) % |t.own|] <==> k < t.queued)
            && t.toSet == (t.dma + t.queued) % |t.own|
  {
    RunInv(states, actions, i);
    var t := states[i];
    WrapIsMod(|t.own|, t.dma + k);
    WrapIsMod(|t.own|, t.dma + t.queued);
    assert OwnsAt(t.own, t.dma, t.queued, k);
  }

  /** Frames leave in the order of the calls, each once and unchanged. */
  lemma SentInOrder(states: seq<Tx>, actions: seq<Action>, i: nat)
    requires Run(true, states, actions) && i < |states|
    ensures states[i].sent <= states[i].submitted
    ensures |states[i].submitted| == |states[i].sent| + states[i].queued + if states[i].writer == Idle then 0 else 1
  {
    RunInv(states, actions, i);
  }

  /** The descriptor about to be filled is the CPU's, after a wake too, though the loop does not look again. */
  lemma FilledIsFree(states: seq<Tx>, actions: seq<Action>, i: nat)
    requires Run(true, states, actions) && i < |states| && states[i].writer.Filling?
    ensures Sound(states[i]) && !states[i].own[states[i].toSet]
  {
    RunInv(states, actions, i);
    SetIsFree(states[i]);
  }

  /* Lost wakes. */

  /** The writer sleeps, its flag is up, and there is neither a frame to send nor an interrupt to serve. */
  predicate Lost(t: Tx) {
    t.writer.Waiting? && t.wait == 0 && !t.pending && t.queued == 0
  }

  /** The hardware's steps acts can be taken from t, and then the writer has its token. */
  ghost predicate WakesAfter(t: Tx, acts: seq<Action>)
    requires Sound(t)
    decreases |acts|
  {
    if acts == [] then t.wait > 0
    else
      && (acts[0] == DmaSend || acts[0] == Isr) && Enabled(t, acts[0])
      && Sound(Next(t, acts[0])) && WakesAfter(Next(t, acts[0]), acts[1..])
  }

  lemma {:induction false} LostSleepsOn(t: Tx, acts: seq<Action>)
    requires Sound(t) && Interval(t) && Lost(t)
    ensures !WakesAfter(t, acts)
  {
    SetIsFree(t);
  }

  /**
   * The exact condition: a sleeping writer can be woken unless nothing is left to send and nothing to serve; in
   * that case no step of anyone is possible at all.
   */
  lemma WokenUnlessLost(states: seq<Tx>, actions: seq<Action>, i: nat)
    requires Run(true, states, actions) && i < |states| && states[i].writer.Waiting?
    ensures Sound(states[i])
    ensures (exists acts :: WakesAfter(states[i], acts)) <==> !Lost(states[i])
    ensures Lost(states[i]) <==> forall a :: !Enabled(states[i], a)
  {
    RunInv(states, actions, i);
    var t := states[i];
    SetIsFree(t);
    if Lost(t) {
      forall acts ensures !WakesAfter(t, acts) {
        LostSleepsOn(t, acts);
      }
    } else {
      WakeFound(t);
      assert Enabled(t, TakeWait) || Enabled(t, Isr) || Enabled(t, DmaSend);
    }
  }

  lemma WakeFound(t: Tx)
    requires Inv(t) && t.writer.Waiting? && !Lost(t)
    ensures exists acts :: WakesAfter(t, acts)
  {
    hide Content, Wrap, Queued;
    SetIsFree(t);
    if t.wait > 0 {
      assert WakesAfter(t, []);
    } else if t.pending {
      IsrWakes(t);
    } else {
      SendInterval(t);
      var u := Next(t, DmaSend);
      IsrWakes(u);
      var acts := [DmaSend, Isr];
      assert acts[1..] == [Isr];
      assert WakesAfter(t, acts);
    }
  }

  lemma IsrWakes(t: Tx)
    requires Sound(t) && t.pending && t.flag
    ensures WakesAfter(t, [Isr])
  {
    assert [Isr][1..] == [];
    assert WakesAfter(Next(t, Isr), []);
  }

  /** The wake is lost exactly when everything was sent and served between the OWN test and the flag. */
  lemma SleepLosesExactly(states: seq<Tx>, actions: seq<Action>, i: nat)
    requires Run(true, states, actions) && i < |actions| && actions[i] == Sleep
    ensures Lost(states[i + 1]) <==> states[i].queued == 0
  {
    RunInv(states, actions, i);
  }

  ghost predicate Reachable(prompt: bool, t: Tx) {
    exists states, actions :: Run(prompt, states, actions) && states[|actions|] == t
  }

  lemma ReachableInitial(prompt: bool, t: Tx)
    requires Initial(t)
    ensures Reachable(prompt, t)
  {
    var actions: seq<Action> := [];
    assert Run(prompt, [t], actions);
  }

  lemma ReachableNext(prompt: bool, t: Tx, a: Action)
    requires Reachable(prompt, t) && Sound(t) && Enabled(t, a) && (prompt ==> Prompt(t, a))
    ensures Reachable(prompt, Next(t, a))
  {
    hide Sound, Enabled, Prompt, Next, Initial;
    var states, actions :| Run(prompt, states, actions) && states[|actions|] == t;
    assert Run(prompt, states + [Next(t, a)], actions + [a]);
  }

  /** k frames are queued, the writer is idle. */
  predicate Steady(t: Tx, size: nat, k: nat, pending: bool) {
    && Sound(t) && Interval(t) && |t.own| == size && t.queued == k && t.writer == Idle
    && !t.flag && t.wait == 0 && t.pending == pending
  }

  lemma QueueOne(prompt: bool, t: Tx, size: nat, k: nat) returns (u: Tx)
    requires Reachable(prompt, t) && Steady(t, size, k, t.pending) && k < size && (prompt ==> !t.pending)
    ensures Reachable(prompt, u) && Steady(u, size, k + 1, t.pending)
  {
    hide Wrap, Reachable, Interval;
    SetIsFree(t);
    ReachableNext(prompt, t, Submit([]));
    var v := Next(t, Submit([]));
    SameInterval(t, v);
    FillInterval(v);
    ReachableNext(prompt, v, Fill);
    u := Next(v, Fill);
  }

  lemma SameInterval(t: Tx, u: Tx)
    requires Sound(t) && Interval(t)
    requires u.own == t.own && u.buf == t.buf && u.next == t.next && u.dma == t.dma && u.toSet == t.toSet
    requires u.queued == t.queued
    ensures Sound(u) && Interval(u)
  {
  }

  lemma {:induction false} QueueUpTo(prompt: bool, t: Tx, size: nat, k: nat, n: nat) returns (u: Tx)
    requires Reachable(prompt, t) && Steady(t, size, k, t.pending) && k <= n <= size && (prompt ==> !t.pending)
    ensures Reachable(prompt, u) && Steady(u, size, n, t.pending)
    decreases n - k
  {
    hide Steady, Reachable;
    u := t;
    if k < n {
      u := QueueOne(prompt, t, size, k);
      PendingOf(u, size, k + 1, t.pending);
      u := QueueUpTo(prompt, u, size, k + 1, n);
    }
  }

  lemma PendingOf(t: Tx, size: nat, k: nat, pending: bool)
    requires Steady(t, size, k, pending)
    ensures t.pending == pending
  {
  }

  /** Between its OWN test and its flag, everything queued is sent and served. */
  lemma {:induction false} AllServed(t: Tx, k: nat) returns (u: Tx)
    requires Reachable(true, t) && Sound(t) && Interval(t) && t.queued == k
    requires t.writer.Tested? && !t.flag && t.wait == 0 && !t.pending
    ensures Reachable(true, u) && Sound(u) && u.queued == 0
    ensures u.writer.Tested? && !u.flag && u.wait == 0 && !u.pending
    decreases k
  {
    hide Wrap, Reachable, Interval;
    u := t;
    if k > 0 {
      SetIsFree(t);
      ReachableNext(true, t, DmaSend);
      SendInterval(t);
      var v := Next(t, DmaSend);
      ReachableNext(true, v, Isr);
      SameInterval(v, Next(v, Isr));
      u := AllServed(Next(v, Isr), k - 1);
    }
  }

  /** From every initial state, with any number of descriptors, a run loses the wake. */
  lemma LostWakeIsReached(t: Tx)
    requires Initial(t)
    ensures exists u :: Reachable(true, u) && Lost(u)
  {
    hide Reachable, Interval;
    ReachableInitial(true, t);
    InitInv(t);
    var u := QueueUpTo(true, t, |t.own|, 0, |t.own|);
    SetIsFree(u);
    ReachableNext(true, u, Submit([]));
    var v := Next(u, Submit([]));
    SameInterval(u, v);
    v := AllServed(v, |t.own|);
    ReachableNext(true, v, Sleep);
    assert Lost(Next(v, Sleep));
  }

  /* Interrupts that come late. */

  /**
   * A wake in this run: a writer that found the chain full at a has its token at k and goes on to fill. Between
   * the two it does nothing but go to sleep.
   */
  ghost predicate Wake(states: seq<Tx>, actions: seq<Action>, a: nat, k: nat)
    requires |states| == |actions| + 1
  {
    && a < k < |actions| && actions[a].Submit? && Sound(states[a]) && states[a].own[states[a].toSet]
    && actions[k] == TakeWait && forall j :: a < j < k ==> actions[j] != TakeWait
  }

  /** Did the DMA send a frame in between? */
  ghost predicate SentBetween(actions: seq<Action>, a: nat, k: nat) {
    exists j :: a < j < k <= |actions| && actions[j] == DmaSend
  }

  lemma DmaKeeps(t: Tx, a: Action)
    requires Sound(t) && Interval(t) && Enabled(t, a) && (a == Fill ==> !t.own[t.toSet])
    ensures Sound(Next(t, a)) && Interval(Next(t, a)) && |Next(t, a).own| == |t.own|
    ensures a != Fill ==> Next(t, a).toSet == t.toSet && Next(t, a).queued == t.queued - if a == DmaSend then 1 else 0
  {
    hide Wrap, OwnsAt;
    SetIsFree(t);
    match a
    case Fill => FillInterval(t);
    case DmaSend => SendInterval(t);
    case _ => SameInterval(t, Next(t, a));
  }

  /** From a full chain on: the descriptor is free as soon as a frame has been sent, and not before. */
  lemma {:induction false} FreedBySending(states: seq<Tx>, actions: seq<Action>, a: nat, k: nat)
    requires Run(false, states, actions) && a < k < |states|
    requires actions[a].Submit? && Sound(states[a]) && Interval(states[a]) && states[a].own[states[a].toSet]
    requires forall j :: a < j < k ==> actions[j] != TakeWait
    ensures var t := states[k];
            && Sound(t) && Interval(t) && (t.writer.Tested? || t.writer.Waiting?)
            && (t.queued == |t.own| <==> !SentBetween(actions, a, k))
    decreases k
  {
    hide Wrap, OwnsAt;
    SetIsFree(states[a]);
    if k == a + 1 {
      SameInterval(states[a], states[k]);
    } else {
      FreedBySending(states, actions, a, k - 1);
      DmaKeeps(states[k - 1], actions[k - 1]);
      if SentBetween(actions, a, k - 1) {
        var j :| a < j < k - 1 <= |actions| && actions[j] == DmaSend;
        assert SentBetween(actions, a, k);
      }
    }
  }

  /**
   * Interrupts as late as they like. The writer is woken with its descriptor free exactly when the DMA has sent a
   * frame since the call that found it owned; a stale interrupt alone does not free it.
   */
  lemma WokenFreeExactly(states: seq<Tx>, actions: seq<Action>, a: nat, k: nat)
    requires Run(false, states, actions) && Wake(states, actions, a, k) && Interval(states[a])
    ensures Sound(states[k + 1]) && states[k + 1].writer.Filling?
    ensures !states[k + 1].own[states[k + 1].toSet] <==> SentBetween(actions, a, k)
  {
    hide Wrap, OwnsAt, Interval;
    FreedBySending(states, actions, a, k);
    SetIsFree(states[k]);
  }

  /** The descriptor that a filling writer is about to fill is the CPU's. */
  predicate FillsFree(t: Tx) {
    Sound(t) && (t.writer.Filling? ==> !t.own[t.toSet])
  }

  lemma {:induction false} FreeSoFar(states: seq<Tx>, actions: seq<Action>, i: nat)
    requires Run(false, states, actions) && i < |states|
    requires forall j :: 0 <= j < i ==> FillsFree(states[j])
    ensures Sound(states[i]) && Interval(states[i])
  {
    hide Wrap, OwnsAt, Interval, Next;
    if i == 0 {
      InitInv(states[0]);
    } else {
      FreeSoFar(states, actions, i - 1);
      assert FillsFree(states[i - 1]);
      DmaKeeps(states[i - 1], actions[i - 1]);
    }
  }

  /** Looking back from a writer that sleeps or is about to: the call that found the chain full. */
  lemma {:induction false} FoundFullAt(states: seq<Tx>, actions: seq<Action>, i: nat) returns (a: nat)
    requires Run(false, states, actions) && i < |states|
    requires states[i].writer.Tested? || states[i].writer.Waiting?
    ensures a < i && actions[a].Submit? && Sound(states[a]) && states[a].own[states[a].toSet]
    ensures forall j :: a < j < i ==> actions[j] != TakeWait
  {
    assert states[i] == Next(states[i - 1], actions[i - 1]);
    if actions[i - 1].Submit? {
      a := i - 1;
    } else {
      a := FoundFullAt(states, actions, i - 1);
    }
  }

  lemma {:induction false} FilledFree(states: seq<Tx>, actions: seq<Action>, i: nat)
    requires Run(false, states, actions) && i < |states|
    requires forall a, k :: Wake(states, actions, a, k) ==> SentBetween(actions, a, k)
    ensures forall j :: 0 <= j <= i ==> FillsFree(states[j])
  {
    hide Wrap, OwnsAt, Interval, Wake, SentBetween;
    if i > 0 {
      FilledFree(states, actions, i - 1);
      FreeSoFar(states, actions, i);
      var s, act := states[i - 1], actions[i - 1];
      assert FillsFree(s) && states[i] == Next(s, act);
      if act == TakeWait {
        FilledFreeAfterWake(states, actions, i - 1);
      }
    }
  }

  lemma FilledFreeAfterWake(states: seq<Tx>, actions: seq<Action>, k: nat)
    requires Run(false, states, actions) && k < |actions| && actions[k] == TakeWait
    requires forall j :: 0 <= j <= k ==> FillsFree(states[j])
    requires forall a, k :: Wake(states, actions, a, k) ==> SentBetween(actions, a, k)
    ensures FillsFree(states[k + 1])
  {
    hide Wrap, OwnsAt, Interval, SentBetween;
    var a := FoundFullAt(states, actions, k);
    assert Wake(states, actions, a, k);
    FreeSoFar(states, actions, a);
    WokenFreeExactly(states, actions, a, k);
  }

  /**
   * The exact condition for a whole run with interrupts as late as they like: every descriptor the driver fills in
   * it is the CPU's, if and only if before every wake a frame was sent since the call that found the chain full.
   */
  lemma FilledIsFreeExactly(states: seq<Tx>, actions: seq<Action>)
    requires Run(false, states, actions)
    ensures (forall i :: 0 <= i < |states| ==> FillsFree(states[i]))
            <==> (forall a, k :: Wake(states, actions, a, k) ==> SentBetween(actions, a, k))
  {
    hide Wrap, OwnsAt, Interval, SentBetween, Next;
    if forall a, k :: Wake(states, actions, a, k) ==> SentBetween(actions, a, k) {
      FilledFree(states, actions, |actions|);
    } else {
      var a, k :| Wake(states, actions, a, k) && !SentBetween(actions, a, k);
      if forall i :: 0 <= i < |states| ==> FillsFree(states[i]) {
        FreeSoFar(states, actions, a);
        WokenFreeExactly(states, actions, a, k);
        assert false;
      }
    }
  }

  /** Without prompt interrupts, from every initial state: the driver is about to fill a descriptor of the DMA's. */
  lemma LateInterruptIsReached(t: Tx)
    requires Initial(t)
    ensures exists u :: Reachable(false, u) && Sound(u) && u.writer.Filling? && u.own[u.toSet]
  {
    hide Reachable, Interval;
    ReachableInitial(false, t);
    InitInv(t);
    var u := QueueOne(false, t, |t.own|, 0);
    SetIsFree(u);
    ReachableNext(false, u, DmaSend);
    SendInterval(u);
    u := Next(u, DmaSend);
    u := QueueUpTo(false, u, |t.own|, 0, |t.own|);
    SetIsFree(u);
    var frame: Frame := [];
    ReachableNext(false, u, Submit(frame));
    var v := Next(u, Submit(frame));
    ReachableNext(false, v, Sleep);
    var w := Next(v, Sleep);
    ReachableNext(false, w, Isr);
    var x := Next(w, Isr);
    ReachableNext(false, x, TakeWait);
    assert Next(x, TakeWait).writer.Filling?;
  }
}
