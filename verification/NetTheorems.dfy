/** What holds of every run of the net buffer. */
module NetTheorems {
  import opened Ring
  import opened NetProtocol
  import opened NetInvariant

  /** Every state of every run satisfies the invariant, and Filling too when there are ten blocks of space. */
  lemma {:induction false} RunInv(states: seq<System>, actions: seq<Action>, i: nat)
    requires Run(states, actions) && i < |states|
    requires |states[0].b.ring| >= 5 * BLOCK_SIZE
    ensures Inv(states[i]) && |states[i].b.ring| == |states[0].b.ring|
    ensures |states[0].b.ring| >= 10 * BLOCK_SIZE ==> Filling(states[i])
  {
    hide Next, Enabled, Filling;
    if i == 0 {
      InitInv(states[0]);
    } else {
      RunInv(states, actions, i - 1);
      var s, a := states[i - 1], actions[i - 1];
      assert states[i] == Next(s, a);
      NextInv(s, a);
      if |states[0].b.ring| >= 10 * BLOCK_SIZE {
        NextFilling(s, a);
      }
    }
  }

  /** Is the reader stuck on its semaphore? The worker on its own? */
  predicate ReaderBlocked(s: System) {
    s.reader.Waiting? && s.b.ready == 0
  }

  predicate WorkerBlocked(s: System) {
    s.worker.Blocked? && s.b.resume == 0
  }

  /** Worker and reader are never both stuck, whatever is stopped and restarted when. */
  lemma NeverBothBlocked(states: seq<System>, actions: seq<Action>, i: nat)
    requires Run(states, actions) && i < |states|
    requires |states[0].b.ring| >= 10 * BLOCK_SIZE
    ensures !(ReaderBlocked(states[i]) && WorkerBlocked(states[i]))
  {
    RunInv(states, actions, i);
  }

  /** Each semaphore holds at most one token, the job queue at most one message, and a worker stuck in SUSPEND
   * has at least resume_wm bytes for the reader to take. */
  lemma AtMostOneToken(states: seq<System>, actions: seq<Action>, i: nat)
    requires Run(states, actions) && i < |states|
    requires |states[0].b.ring| >= 5 * BLOCK_SIZE
    ensures states[i].b.ready <= 1 && states[i].b.resume <= 1 && states[i].b.jobs <= 1
    ensures states[i].b.stat == Suspend ==> states[i].b.n >= ResumeMark(|states[i].b.ring|) > 0
    ensures WorkerBlocked(states[i]) && states[i].reader != Releasing ==> states[i].b.stat == Suspend
  {
    RunInv(states, actions, i);
    ResumeLeavesRoom(|states[i].b.ring|);
  }

  /**
   * In every BUFFERING and SUSPEND state. Once the worker has the job: the ring is never over-full, its save index
   * is the read index plus the occupancy, and the bytes fetched are those delivered since then, those in the ring
   * and the block in hand. Before that nothing is fetched. If no byte was delivered early, the bytes delivered
   * since the start are a prefix of the bytes fetched.
   */
  lemma DeliveredIsPrefix(states: seq<System>, actions: seq<Action>, i: nat)
    requires Run(states, actions) && i < |states|
    requires |states[0].b.ring| >= 5 * BLOCK_SIZE
    requires states[i].b.stat == Buffering || states[i].b.stat == Suspend
    ensures var s := states[i];
            && s.early <= |s.delivered| && (s.early == 0 ==> s.delivered <= s.fetched)
            && (!InJob(s.worker) ==> s.fetched == [] && s.early == |s.delivered|)
            && (InJob(s.worker) ==>
                  && s.b.n <= |s.b.ring| && s.b.r < |s.b.ring| && s.b.w == (s.b.r + s.b.n) % |s.b.ring|
                  && s.fetched == Fresh(s) + Content(s.b.ring, s.b.r, s.b.n) + Pending(s.worker)
                  && (s.worker.Save? ==> s.b.n + |s.worker.block| <= |s.b.ring|))
  {
    RunInv(states, actions, i);
    var s := states[i];
    if InJob(s.worker) {
      WrapIsMod(|s.b.ring|, s.b.r + s.b.n);
      if s.b.n == |s.b.ring| {
        assert s.b.w == s.b.r;
      }
    }
    if s.early == 0 {
      assert Fresh(s) == s.delivered;
    }
  }

  /* What single steps of a run do to the bytes. */

  /**
   * A read that copies in a BUFFERING or SUSPEND state, once the worker has the job, adds exactly the oldest bytes
   * to those delivered: as many as it asked for, or all there are. The others stay.
   */
  lemma CopyDelivers(states: seq<System>, actions: seq<Action>, i: nat)
    requires Run(states, actions) && i < |actions| && |states[0].b.ring| >= 5 * BLOCK_SIZE
    requires actions[i] == Copy && InJob(states[i].worker)
    requires states[i].b.stat == Buffering || states[i].b.stat == Suspend
    ensures var s, t := states[i], states[i + 1];
            && s.reader.Copying? && ValidBuf(s.b) && ValidBuf(t.b) && s.b.n <= |s.b.ring| && t.b.n <= |t.b.ring|
            && (var k := if s.reader.length < s.b.n then s.reader.length else s.b.n;
                && t.delivered == s.delivered + Content(s.b.ring, s.b.r, s.b.n)[..k]
                && Content(t.b.ring, t.b.r, t.b.n) == Content(s.b.ring, s.b.r, s.b.n)[k..])
  {
    RunInv(states, actions, i);
    ReadReturnsOldest(states[i].b, states[i].reader.length);
  }

  /** A worker waits for room exactly when the block it fetched does not fit behind the bytes in the ring. */
  lemma SuspendsExactlyWithoutRoom(states: seq<System>, actions: seq<Action>, i: nat)
    requires Run(states, actions) && i < |actions| && |states[0].b.ring| >= 5 * BLOCK_SIZE
    requires actions[i] == TestRoom
    ensures var s, t := states[i], states[i + 1];
            && s.worker.Test?
            && (t.worker.Blocked? <==> s.b.n + |s.worker.block| > |s.b.ring|)
            && t.b == (if t.worker.Blocked? then s.b.(stat := Suspend) else s.b)
            && t.worker == if t.worker.Blocked? then Blocked(s.worker.block) else Save(s.worker.block)
  {
    RunInv(states, actions, i);
  }

  /** The block saved goes behind the bytes in the ring, which stay; unless a stop has let it in unguarded. */
  lemma SaveAppends(states: seq<System>, actions: seq<Action>, i: nat)
    requires Run(states, actions) && i < |actions| && |states[0].b.ring| >= 5 * BLOCK_SIZE
    requires actions[i] == SaveBlock && states[i].b.stat != Stopping
    ensures var s, t := states[i], states[i + 1];
            && s.worker.Save? && ValidBuf(s.b) && ValidBuf(t.b) && s.b.n <= |s.b.ring| && t.b.n <= |t.b.ring|
            && Content(t.b.ring, t.b.r, t.b.n) == Content(s.b.ring, s.b.r, s.b.n) + s.worker.block
            && t.worker == Notify(t.b.n) && t.fetched == s.fetched && t.delivered == s.delivered
  {
    RunInv(states, actions, i);
    var s := states[i];
    WriteIsFifo(s.b.ring, s.b.r, s.b.n, s.b.w, s.worker.block);
  }

  /** A waiting reader gets its token after a save exactly when the job buffers and the length saved reached ready_wm. */
  lemma NotifiesExactlyAtMark(states: seq<System>, actions: seq<Action>, i: nat)
    requires Run(states, actions) && i < |actions| && |states[0].b.ring| >= 5 * BLOCK_SIZE
    requires actions[i] == NotifyReader
    ensures var s, t := states[i], states[i + 1];
            && s.worker.Notify?
            && t.b.ready == s.b.ready + (if s.b.stat == Buffering && s.b.flag && s.worker.saved >= |s.b.ring| * 90 / 100
                                         then 1 else 0)
            && (t.b.flag <==> s.b.flag && t.b.ready == s.b.ready)
            && t == s.(b := s.b.(ready := t.b.ready, flag := t.b.flag), worker := Top)
  {
    RunInv(states, actions, i);
  }

  /* Runs in which nobody calls net_buf_stop_job. */

  lemma StepWithoutStop(s: System, a: Action)
    requires Inv(s) && Enabled(s, a) && Stored(Next(s, a)) && Jobs(Next(s, a)) && a != Stop
    requires s.b.stat != Stopping && s.b.n <= |s.b.ring|
    ensures Next(s, a).b.stat != Stopping && Next(s, a).b.n <= |Next(s, a).b.ring|
  {
    hide Content, CopyIn, CopyOut, NextRead, NextSave, Wrap, ReadyMark, ResumeMark, Resumes, Readies, Fresh;
  }

  lemma {:induction false} WithoutStop(states: seq<System>, actions: seq<Action>, i: nat)
    requires Run(states, actions) && i < |states|
    requires |states[0].b.ring| >= 5 * BLOCK_SIZE
    requires forall j :: 0 <= j < |actions| ==> actions[j] != Stop
    ensures states[i].b.stat != Stopping
    ensures states[i].b.n <= |states[i].b.ring|
  {
    hide Next, Enabled, Jobs, Resumes, Readies, Stored;
    if i > 0 {
      WithoutStop(states, actions, i - 1);
      RunInv(states, actions, i - 1);
      RunInv(states, actions, i);
      StepWithoutStop(states[i - 1], actions[i - 1]);
    }
  }

  /* When a stuck reader is woken. */

  /**
   * The status says STOPPING but the worker has no job to stop: net_buf_stop_job was called before the
   * worker picked the job up, and the worker throws such a job away.
   */
  predicate Lost(s: System) {
    s.b.stat == Stopping && (s.worker == NoJob || s.worker == Reset)
  }

  /** No action leaves that state: the status stays STOPPING, every start is refused, and a stuck reader stays stuck. */
  lemma LostForGood(s: System, a: Action)
    requires Inv(s) && Enabled(s, a) && Lost(s)
    ensures Lost(Next(s, a)) && (Next(s, a).sending ==> s.sending)
    ensures ReaderBlocked(s) ==> ReaderBlocked(Next(s, a)) && Next(s, a).delivered == s.delivered
  {
    hide Content, CopyIn, CopyOut, NextRead, NextSave;
  }

  /** The steps the worker takes. */
  predicate WorkerStep(a: Action) {
    a == Receive || a == SeeStop || a.Fetch? || a == TestRoom || a == TakeResume
    || a == SaveBlock || a == NotifyReader || a == MarkStopped || a == WakeOnStop || a == ClearIndices
  }

  /** How many such steps a stuck reader waits at most. */
  function Patience(s: System): nat {
    var mark := ReadyMark(|s.b.ring|);
    var missing := if s.b.n < mark then mark - s.b.n else 0;
    match s.worker
    case NoJob => 5 * mark + 7
    case Reset => 5 * mark + 8
    case Top => 5 * missing + 6
    case Test(_) => 5 * missing + 5
    case Blocked(_) => 5 * missing + 4
    case Save(_) => 5 * missing + 3
    case Notify(_) => 5 * missing + 7
    case SetStopped => 2
    case WakeReader => 1
  }

  /** While a stuck reader is not lost, the worker can move, or the message of its job is about to be sent. */
  lemma SomeoneCanMove(s: System)
    requires Inv(s) && Filling(s) && |s.b.ring| >= 10 * BLOCK_SIZE
    requires ReaderBlocked(s) && !Lost(s)
    ensures (exists a :: WorkerStep(a) && Enabled(s, a)) || (s.worker == NoJob && Enabled(s, Send))
  {
    match s.worker
    case NoJob => assert Enabled(s, Send) || Enabled(s, Receive);
    case Reset => assert Enabled(s, ClearIndices);
    case Top => assert Enabled(s, SeeStop) || Enabled(s, Fetch([]));
    case Test(_) => assert Enabled(s, TestRoom);
    case Blocked(_) => assert Enabled(s, TakeResume);
    case Save(_) => assert Enabled(s, SaveBlock);
    case Notify(_) => assert Enabled(s, NotifyReader);
    case SetStopped => assert Enabled(s, MarkStopped);
    case WakeReader => assert Enabled(s, WakeOnStop);
  }

  /** No step of anyone tries the stuck reader's patience, and every step of the worker eases it or wakes the reader. */
  lemma EachStepHelps(s: System, a: Action)
    requires Inv(s) && Filling(s) && |s.b.ring| >= 10 * BLOCK_SIZE
    requires ReaderBlocked(s) && !Lost(s) && Enabled(s, a)
    ensures var t := Next(s, a);
            && t.reader == s.reader
            && (ReaderBlocked(t) ==> Patience(t) <= Patience(s) && (WorkerStep(a) ==> Patience(t) < Patience(s)))
            && (Lost(t) && ReaderBlocked(t) ==> a == Stop)
  {
    hide Content, CopyIn, CopyOut, NextRead, NextSave, ReadyMark, ResumeMark;
    ReadyLeavesRoom(|s.b.ring|);
  }

  /** acts can be taken one after the other from s. */
  ghost predicate CanRun(s: System, acts: seq<Action>)
    decreases |acts|
  {
    acts == [] || (Sized(s) && Enabled(s, acts[0]) && CanRun(Next(s, acts[0]), acts[1..]))
  }

  /** After acts the waiting reader has its token, or its job is lost. */
  ghost predicate Settled(s: System, acts: seq<Action>)
    decreases |acts|
  {
    if acts == [] then (s.reader.Waiting? && s.b.ready > 0) || Lost(s)
    else Sized(s) && Enabled(s, acts[0]) && Settled(Next(s, acts[0]), acts[1..])
  }

  function WorkerSteps(acts: seq<Action>): nat {
    if acts == [] then 0 else (if WorkerStep(acts[0]) then 1 else 0) + WorkerSteps(acts[1..])
  }

  /**
   * Whatever the application does meanwhile: by the time the worker has taken as many steps as the reader has
   * patience, the reader has its token, unless a stop before the pickup has lost its job.
   */
  lemma {:induction false} WokenInTime(s: System, acts: seq<Action>)
    requires Inv(s) && Filling(s) && |s.b.ring| >= 10 * BLOCK_SIZE
    requires s.reader.Waiting?
    requires CanRun(s, acts) && WorkerSteps(acts) >= Patience(s)
    ensures exists k :: 0 <= k <= |acts| && Settled(s, acts[..k])
    decreases |acts|
  {
    hide Inv, Filling, Enabled, Next, Patience, Lost, WorkerStep;
    if ReaderBlocked(s) && !Lost(s) {
      PatiencePositive(s);
      var u := Next(s, acts[0]);
      EachStepHelps(s, acts[0]);
      NextInv(s, acts[0]);
      NextFillingInv(s, acts[0]);
      if ReaderBlocked(u) {
        WokenInTime(u, acts[1..]);
        var k :| 0 <= k <= |acts[1..]| && Settled(u, acts[1..][..k]);
        assert acts[..k + 1][1..] == acts[1..][..k];
        assert Settled(s, acts[..k + 1]);
      } else {
        assert acts[..1][1..] == [];
        assert Settled(u, []);
        assert Settled(s, acts[..1]);
      }
    } else {
      assert acts[..0] == [];
      assert Settled(s, acts[..0]);
    }
  }

  lemma PatiencePositive(s: System)
    ensures Patience(s) > 0
  {
  }

  lemma NextFillingInv(s: System, a: Action)
    requires Inv(s) && Filling(s) && |s.b.ring| >= 10 * BLOCK_SIZE && Enabled(s, a)
    ensures Filling(Next(s, a))
  {
    NextFilling(s, a);
  }

  /** Some run ends in t; stops: whether net_buf_stop_job may be called in it. */
  ghost predicate Reachable(stops: bool, t: System) {
    exists states, actions :: Run(states, actions) && states[|actions|] == t && (stops || Stop !in actions)
  }

  lemma ReachableNext(stops: bool, s: System, a: Action)
    requires Reachable(stops, s) && Sized(s) && Enabled(s, a) && (stops || a != Stop)
    ensures Reachable(stops, Next(s, a))
  {
    hide Sized, Enabled, Next, Initial;
    var states, actions :| Run(states, actions) && states[|actions|] == s && (stops || Stop !in actions);
    assert Run(states + [Next(s, a)], actions + [a]);
  }

  lemma ReachableInitial(stops: bool, s: System)
    requires Initial(s)
    ensures Reachable(stops, s)
  {
    var actions: seq<Action> := [];
    assert Run([s], actions);
  }

  /** The lost state can be reached with a reader stuck in it, in five steps from any initial state. */
  lemma StopBeforePickup(s: System)
    requires Initial(s)
    ensures exists t :: Reachable(true, t) && Lost(t) && ReaderBlocked(t)
  {
    hide CopyIn, CopyOut, NextRead, NextSave, ReadyMark, ResumeMark, Reachable;
    ReachableInitial(true, s);
    ReachableNext(true, s, Start);
    var s1 := Next(s, Start);
    ReachableNext(true, s1, Read(1));
    var s2 := Next(s1, Read(1));
    ReachableNext(true, s2, Stop);
    var s3 := Next(s2, Stop);
    ReachableNext(true, s3, Send);
    var s4 := Next(s3, Send);
    ReachableNext(true, s4, Receive);
  }

  /**
   * A stop that the running job can see is kept until the worker marks the job stopped, with one exception:
   * a worker that finds no room after its fetch overwrites it with SUSPEND.
   */
  lemma StopIsKept(s: System, a: Action)
    requires Inv(s) && Enabled(s, a) && InJob(s.worker) && s.b.stat == Stopping
    ensures Next(s, a).b.stat == Stopping <==>
            !(a == MarkStopped || (a == TestRoom && NoRoom(s.b, s.worker.block)))
    ensures a == TestRoom && NoRoom(s.b, s.worker.block) ==> Next(s, a).b.stat == Suspend
  {
  }

  /* Runs that fill the ring. */

  /** A job is running, k bytes are in the ring, and nobody waits for anything. */
  predicate Steady(s: System, size: nat, k: nat) {
    && Sized(s) && |s.b.ring| == size && s.b.n == k && s.b.stat == Buffering
    && s.worker == Top && s.reader == Idle && !s.b.flag && !s.sending
  }

  lemma OneMoreByte(stops: bool, s: System, size: nat, k: nat) returns (t: System)
    requires Reachable(stops, s) && Steady(s, size, k) && k < size
    ensures Reachable(stops, t) && Sized(t) && |t.b.ring| == size && t.b.n == k + 1 && t.b.stat == Buffering
    ensures t.worker == Notify(k + 1) && t.reader == Idle && !t.b.flag && !t.sending
  {
    hide CopyIn, CopyOut, NextRead, NextSave, ReadyMark, ResumeMark, Reachable, Sized;
    NextSized(s, Fetch([0]));
    ReachableNext(stops, s, Fetch([0]));
    var s1 := Next(s, Fetch([0]));
    NextSized(s1, TestRoom);
    ReachableNext(stops, s1, TestRoom);
    var s2 := Next(s1, TestRoom);
    NextSized(s2, SaveBlock);
    ReachableNext(stops, s2, SaveBlock);
    t := Next(s2, SaveBlock);
  }

  lemma {:induction false} FillTo(stops: bool, s: System, k: nat) returns (t: System)
    requires Initial(s) && k <= |s.b.ring|
    ensures Reachable(stops, t) && Steady(t, |s.b.ring|, k)
  {
    hide CopyIn, CopyOut, NextRead, NextSave, ReadyMark, ResumeMark, Reachable;
    if k == 0 {
      ReachableInitial(stops, s);
      ReachableNext(stops, s, Start);
      var s1 := Next(s, Start);
      ReachableNext(stops, s1, Send);
      var s2 := Next(s1, Send);
      ReachableNext(stops, s2, Receive);
      t := Next(s2, Receive);
    } else {
      var u := FillTo(stops, s, k - 1);
      var v := OneMoreByte(stops, u, |s.b.ring|, k - 1);
      NextSized(v, NotifyReader);
      ReachableNext(stops, v, NotifyReader);
      t := Next(v, NotifyReader);
    }
  }

  /** A stop that comes while the worker fetches into a full ring is lost: from every initial state a run gets there. */
  lemma LostStopIsReached(s: System)
    requires Initial(s)
    ensures exists t :: Reachable(true, t) && Sized(t) && t.b.stat == Stopping && Enabled(t, TestRoom)
                        && Next(t, TestRoom).b.stat == Suspend
  {
    hide CopyIn, CopyOut, NextRead, NextSave, ReadyMark, ResumeMark, Reachable;
    var s0 := FillTo(true, s, |s.b.ring|);
    ReachableNext(true, s0, Fetch([0]));
    var s1 := Next(s0, Fetch([0]));
    ReachableNext(true, s1, Stop);
    var s2 := Next(s1, Stop);
    assert Next(s2, TestRoom).b.stat == Suspend;
  }

  /**
   * When the source ends, what has been fetched and not delivered is exactly what the ring holds; the three
   * steps of net_buf_do_stop throw it away.
   */
  lemma LeftoverIsLost(states: seq<System>, actions: seq<Action>, i: nat)
    requires Run(states, actions) && i < |states| && |states[0].b.ring| >= 5 * BLOCK_SIZE
    requires states[i].worker == SetStopped && states[i].b.stat == Buffering
    ensures var s := states[i];
            && Sized(s) && s.b.n <= |s.b.ring| && s.early <= |s.delivered|
            && s.fetched == Fresh(s) + Content(s.b.ring, s.b.r, s.b.n)
            && Next(Next(Next(s, MarkStopped), WakeOnStop), ClearIndices).b.n == 0
            && Next(Next(Next(s, MarkStopped), WakeOnStop), ClearIndices).delivered == s.delivered
  {
    RunInv(states, actions, i);
    var s := states[i];
    assert Fresh(s) + Content(s.b.ring, s.b.r, s.b.n) + [] == Fresh(s) + Content(s.b.ring, s.b.r, s.b.n);
  }
}
