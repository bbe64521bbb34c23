/** Which bytes a read of the net buffer returns, and when it returns none. */
module NetReads {
  import opened Ring
  import opened NetProtocol
  import opened NetInvariant
  import opened NetTheorems

  /* Reads between a start and the pickup of its job. */

  /** Does this step start a job? */
  predicate Starts(s: System, a: Action) {
    a == Start && s.b.stat == Stopped
  }

  /** A job that still runs, or waits to be picked up. */
  predicate Live(s: System) {
    InJob(s.worker) || s.b.stat == Buffering
  }

  /** Looking back from a live state with bytes delivered early: some state since the start shows them. */
  lemma {:induction false} EarlyShows(states: seq<System>, actions: seq<Action>, a: nat, i: nat) returns (k: nat)
    requires Run(states, actions) && |states[0].b.ring| >= 5 * BLOCK_SIZE
    requires a < i < |states| && Starts(states[a], actions[a])
    requires forall j :: a < j < i ==> !Starts(states[j], actions[j])
    requires Live(states[i]) && states[i].early > 0
    ensures a < k <= i && states[k].b.stat == Buffering && !(states[k].delivered <= states[k].fetched)
    decreases i
  {
    hide Content, CopyIn, CopyOut, NextRead, NextSave, ReadyMark, ResumeMark, Wrap;
    RunInv(states, actions, i);
    if !InJob(states[i].worker) {
      k := i;
    } else {
      RunInv(states, actions, i - 1);
      assert states[i] == Next(states[i - 1], actions[i - 1]);
      k := EarlyShows(states, actions, a, i - 1);
    }
  }

  /**
   * The exact condition. In a BUFFERING or SUSPEND state, look back at the states since the last start_job: the
   * bytes delivered were a prefix of the bytes fetched in every one of them with such a status, if and only if
   * no byte was delivered before the worker picked the job up.
   */
  lemma PrefixExactlyWithoutEarlyReads(states: seq<System>, actions: seq<Action>, a: nat, i: nat)
    requires Run(states, actions) && |states[0].b.ring| >= 5 * BLOCK_SIZE
    requires a < i < |states| && Starts(states[a], actions[a])
    requires forall j :: a < j < i ==> !Starts(states[j], actions[j])
    requires states[i].b.stat == Buffering || states[i].b.stat == Suspend
    ensures (forall k :: a < k <= i && (states[k].b.stat == Buffering || states[k].b.stat == Suspend) ==>
               states[k].delivered <= states[k].fetched)
            <==> states[i].early == 0
  {
    RunInv(states, actions, i);
    if states[i].early > 0 {
      var k := EarlyShows(states, actions, a, i);
    } else {
      forall k | a < k <= i && (states[k].b.stat == Buffering || states[k].b.stat == Suspend)
        ensures states[k].delivered <= states[k].fetched
      {
        EarlyStays(states, actions, a, k, i);
        DeliveredIsPrefix(states, actions, k);
      }
    }
  }

  lemma EarlyStep(s: System, a: Action)
    requires Inv(s) && Enabled(s, a) && !Starts(s, a)
    ensures s.early <= Next(s, a).early
  {
    hide Content, CopyIn, CopyOut, NextRead, NextSave, ReadyMark, ResumeMark, Wrap, Jobs, Resumes, Readies;
  }

  /** Without a start in between, bytes delivered early stay so. */
  lemma {:induction false} EarlyStays(states: seq<System>, actions: seq<Action>, a: nat, k: nat, i: nat)
    requires Run(states, actions) && |states[0].b.ring| >= 5 * BLOCK_SIZE
    requires a < k <= i < |states|
    requires forall j :: a < j < i ==> !Starts(states[j], actions[j])
    ensures states[k].early <= states[i].early
    decreases i
  {
    hide Next, Enabled, Inv, Starts;
    if k < i {
      EarlyStays(states, actions, a, k, i - 1);
      RunInv(states, actions, i - 1);
      EarlyStep(states[i - 1], actions[i - 1]);
    }
  }

  /* When a start is safe. */

  /** Nothing has been delivered early, and the ring holds nothing that could be. */
  predicate NothingEarly(s: System) {
    && (Live(s) ==> s.early == 0)
    && (s.b.stat == Buffering && !InJob(s.worker) ==> s.b.n == 0)
  }

  lemma NothingEarlyStep(s: System, a: Action)
    requires Inv(s) && Enabled(s, a) && NothingEarly(s) && (Starts(s, a) ==> s.b.n == 0)
    ensures NothingEarly(Next(s, a))
  {
    hide Content, CopyIn, NextRead, NextSave, ReadyMark, ResumeMark, Resumes, Readies;
    if a == Copy && s.b.n == 0 {
      assert ReadBytes(s.b, s.reader.length) == [];
    }
  }

  /**
   * A caller that starts a job only when net_buf_get_usage says 0 never sees such a byte; the ring is empty, too,
   * once the worker waits for a job.
   */
  lemma {:induction false} StartedWhenEmpty(states: seq<System>, actions: seq<Action>, i: nat)
    requires Run(states, actions) && i < |states| && |states[0].b.ring| >= 5 * BLOCK_SIZE
    requires forall j :: 0 <= j < |actions| && Starts(states[j], actions[j]) ==>
               states[j].b.n == 0 || states[j].worker == NoJob
    ensures NothingEarly(states[i])
  {
    hide Next, Enabled, Sized, Jobs, Resumes, Readies, Starts;
    if i > 0 {
      StartedWhenEmpty(states, actions, i - 1);
      RunInv(states, actions, i - 1);
      NothingEarlyStep(states[i - 1], actions[i - 1]);
    }
  }

  /** acts can be taken from s without another start, and then bytes have been delivered early. */
  ghost predicate ReadsEarly(s: System, acts: seq<Action>)
    decreases |acts|
  {
    if acts == [] then Live(s) && s.early > 0
    else Sized(s) && Enabled(s, acts[0]) && !Starts(s, acts[0]) && ReadsEarly(Next(s, acts[0]), acts[1..])
  }

  ghost predicate CanReadEarly(s: System) {
    exists acts :: ReadsEarly(s, acts)
  }

  /** The exact condition, whatever the others are about: a start lets such bytes through if the ring holds any. */
  lemma StartIsSafeExactlyWhenEmpty(s: System)
    requires Inv(s) && Starts(s, Start) && Enabled(s, Start) && |s.b.ring| >= 5 * BLOCK_SIZE
    ensures CanReadEarly(Next(s, Start)) <==> s.b.n > 0
  {
    var s1 := Next(s, Start);
    NextInv(s, Start);
    if s.b.n > 0 {
      LeftoverIsRead(s1);
    } else {
      forall acts ensures !ReadsEarly(s1, acts) {
        EmptyStaysSafe(s1, acts);
      }
    }
  }

  lemma {:induction false} EmptyStaysSafe(s: System, acts: seq<Action>)
    requires Inv(s) && NothingEarly(s) && |s.b.ring| >= 5 * BLOCK_SIZE
    ensures !ReadsEarly(s, acts)
    decreases |acts|
  {
    hide Inv, Next, Enabled, Starts;
    if acts != [] && Sized(s) && Enabled(s, acts[0]) && !Starts(s, acts[0]) {
      NothingEarlyStep(s, acts[0]);
      NextInv(s, acts[0]);
      EmptyStaysSafe(Next(s, acts[0]), acts[1..]);
    }
  }

  /** A job not yet picked up, and bytes of the one before in the ring. */
  predicate Leftover(s: System) {
    Sized(s) && s.b.stat == Buffering && !InJob(s.worker) && s.worker != NoJob && s.b.n > 0
  }

  lemma ReadsEarlyAfter(s: System, a: Action)
    requires Sized(s) && Enabled(s, a) && !Starts(s, a) && CanReadEarly(Next(s, a))
    ensures CanReadEarly(s)
  {
    hide Sized, Enabled, Next, Starts;
    var acts :| ReadsEarly(Next(s, a), acts);
    assert ([a] + acts)[1..] == acts;
    assert ReadsEarly(s, [a] + acts);
  }

  /** Whatever the reader is about, it gets to read before the ring is emptied. */
  lemma LeftoverIsRead(s: System)
    requires Leftover(s) && Resumes(s) && Readies(s) && (s.b.flag ==> s.worker == WakeReader)
    ensures CanReadEarly(s)
  {
    hide Content, CopyIn, CopyOut, NextRead, NextSave, ReadyMark, ResumeMark, CanReadEarly;
    match s.reader
    case Idle => LeftoverFromIdle(s);
    case Copying(_) => LeftoverFromCopy(s);
    case Waiting(_) =>
      if s.b.flag {
        NextSized(s, WakeOnStop);
        var u := Next(s, WakeOnStop);
        NextSized(u, TakeReady);
        LeftoverFromCopy(Next(u, TakeReady));
        ReadsEarlyAfter(u, TakeReady);
        ReadsEarlyAfter(s, WakeOnStop);
      } else {
        NextSized(s, TakeReady);
        LeftoverFromCopy(Next(s, TakeReady));
        ReadsEarlyAfter(s, TakeReady);
      }
  }

  lemma LeftoverFromIdle(s: System)
    requires Leftover(s) && s.reader == Idle
    ensures CanReadEarly(s)
  {
    hide Content, CopyIn, CopyOut, NextRead, NextSave, ReadyMark, ResumeMark, CanReadEarly;
    NextSized(s, Read(1));
    CopyIsEarly(Next(s, Read(1)));
    ReadsEarlyAfter(s, Read(1));
  }

  lemma LeftoverFromCopy(s: System)
    requires Leftover(s) && s.reader.Copying?
    ensures CanReadEarly(s)
  {
    hide Content, CopyIn, CopyOut, NextSave, ReadyMark, ResumeMark, CanReadEarly;
    if s.reader.length > 0 {
      CopyIsEarly(s);
    } else {
      NextSized(s, Copy);
      LeftoverFromIdle(Next(s, Copy));
      ReadsEarlyAfter(s, Copy);
    }
  }

  lemma CopyIsEarly(s: System)
    requires Leftover(s) && s.reader.Copying? && s.reader.length > 0
    ensures CanReadEarly(s)
  {
    hide Content, CopyIn, CopyOut, NextRead, NextSave, ReadyMark, ResumeMark;
    var k := Taken(s.b, s.reader.length);
    CopyOutAt(s.b.ring, s.b.r, k, 0);
    var u := Next(s, Copy);
    assert ReadsEarly(u, []);
    ReadsEarlyAfter(s, Copy);
  }

  /**
   * The source ends, the worker has set STOPPED but not yet emptied the ring, and the next job is started: a
   * read then returns bytes of the job before, while the message of the new job is not even sent.
   */
  lemma StaleReadIsReached(s: System)
    requires Initial(s)
    ensures exists t :: Reachable(false, t) && Sized(t) && t.b.stat == Buffering && !InJob(t.worker) && t.sending
                        && t.reader == Copying(1) && |ReadBytes(t.b, 1)| == 1 && Next(t, Copy).early == 1
  {
    hide CopyIn, NextSave, ReadyMark, ResumeMark, Reachable;
    var s0 := FillTo(false, s, 1);
    ReachableNext(false, s0, Fetch([]));
    var s1 := Next(s0, Fetch([]));
    ReachableNext(false, s1, MarkStopped);
    var s2 := Next(s1, MarkStopped);
    ReachableNext(false, s2, Start);
    var s3 := Next(s2, Start);
    ReachableNext(false, s3, Read(1));
    var s4 := Next(s3, Read(1));
    assert |CopyOut(s4.b.ring, s4.b.r, 1)| == 1 by { CopyOutAt(s4.b.ring, s4.b.r, 1, 0); }
  }

  /* A read in the middle of a job can come back empty. */

  /**
   * The worker notifies on the length it saved, not on the length there is: if the reader drains the ring in
   * between and then waits, it is woken at once and its read returns nothing, though the job goes on.
   */
  lemma ReadCanComeBackEmpty(s: System)
    requires Initial(s)
    ensures exists t :: Reachable(false, t) && ValidBuf(t.b) && t.reader == Copying(1) && t.b.stat == Buffering
                        && InJob(t.worker) && ReadBytes(t.b, 1) == []
  {
    hide CopyIn, NextRead, NextSave, ResumeMark, Reachable;
    var mark := ReadyMark(|s.b.ring|);
    assert 0 < mark <= |s.b.ring|;
    var t0 := FillTo(false, s, mark - 1);
    var t1 := OneMoreByte(false, t0, |s.b.ring|, mark - 1);
    var t5 := DrainAndWait(t1, mark);
    assert ReadBytes(t5.b, 1) == [];
  }

  lemma DrainAndWait(t1: System, mark: nat) returns (t5: System)
    requires Reachable(false, t1) && Sized(t1) && 0 < mark <= |t1.b.ring| && mark == ReadyMark(|t1.b.ring|)
    requires t1.b.n == mark && t1.b.stat == Buffering && t1.worker == Notify(mark)
    requires t1.reader == Idle && !t1.b.flag
    ensures Reachable(false, t5) && Sized(t5) && t5.reader == Copying(1) && t5.b.stat == Buffering
    ensures t5.worker == Top && t5.b.n == 0
  {
    hide CopyIn, CopyOut, NextRead, NextSave, ReadyMark, ResumeMark, Reachable, Sized;
    NextSized(t1, Read(mark));
    ReachableNext(false, t1, Read(mark));
    var t2 := Next(t1, Read(mark));
    NextSized(t2, Copy);
    ReachableNext(false, t2, Copy);
    var t3 := Next(t2, Copy);
    NextSized(t3, Read(1));
    ReachableNext(false, t3, Read(1));
    var t4 := Next(t3, Read(1));
    NextSized(t4, NotifyReader);
    ReachableNext(false, t4, NotifyReader);
    var t := Next(t4, NotifyReader);
    NextSized(t, TakeReady);
    ReachableNext(false, t, TakeReady);
    t5 := Next(t, TakeReady);
  }

  /**
   * No stop is called: the source of the job before ends, and the next job is started before the worker gets to
   * wake its reader. A read of the new job then waits, is woken for the old one, and gets nothing.
   */
  lemma EmptyBeforePickupIsReached(s: System)
    requires Initial(s)
    ensures exists t :: Reachable(false, t) && ValidBuf(t.b) && t.reader == Copying(1) && t.b.stat == Buffering
                        && !InJob(t.worker) && ReadBytes(t.b, 1) == []
  {
    hide CopyIn, NextSave, ReadyMark, ResumeMark, Reachable;
    var s0 := FillTo(false, s, 0);
    ReachableNext(false, s0, Fetch([]));
    var s1 := Next(s0, Fetch([]));
    ReachableNext(false, s1, MarkStopped);
    var s2 := Next(s1, MarkStopped);
    ReachableNext(false, s2, Start);
    var s3 := Next(s2, Start);
    ReachableNext(false, s3, Read(1));
    var s4 := Next(s3, Read(1));
    ReachableNext(false, s4, WakeOnStop);
    var s5 := Next(s4, WakeOnStop);
    ReachableNext(false, s5, TakeReady);
    var t := Next(s5, TakeReady);
    assert ReadBytes(t.b, 1) == [];
  }

  /** A read of the new job finds bytes of the old one and does not wait; the reset comes before its copy. */
  lemma ResetOvertakesRead(s: System)
    requires Initial(s)
    ensures exists t :: Reachable(false, t) && Sized(t) && t.reader == Copying(1) && t.b.stat == Buffering
                        && t.worker == Reset && t.b.n > 0 && ReadBytes(Next(t, ClearIndices).b, 1) == []
  {
    hide CopyIn, NextSave, ReadyMark, ResumeMark, Reachable;
    var s0 := FillTo(false, s, 1);
    ReachableNext(false, s0, Fetch([]));
    var s1 := Next(s0, Fetch([]));
    ReachableNext(false, s1, MarkStopped);
    var s2 := Next(s1, MarkStopped);
    ReachableNext(false, s2, Start);
    var s3 := Next(s2, Start);
    ReachableNext(false, s3, WakeOnStop);
    var s4 := Next(s3, WakeOnStop);
    ReachableNext(false, s4, Read(1));
    var t := Next(s4, Read(1));
    assert ReadBytes(Next(t, ClearIndices).b, 1) == [];
  }

  /* Exactly when. */

  /** The worker is about to notify on a length that reached the mark when it was saved. */
  predicate NoticeDue(s: System) {
    s.worker.Notify? && s.worker.saved >= ReadyMark(|s.b.ring|)
  }

  /** The job goes on in this state: it waits to be picked up, or it runs and its source has not ended. */
  predicate GoesOn(s: System) {
    Live(s) && s.worker != SetStopped
  }

  /** acts can be taken from s without a stop, without the end of the job, and within one read, up to its copy. */
  ghost predicate WithinRead(s: System, acts: seq<Action>)
    decreases |acts|
  {
    && GoesOn(s)
    && (acts == [] || (Sized(s) && Enabled(s, acts[0]) && acts[0] != Stop && acts[0] != Copy
                       && WithinRead(Next(s, acts[0]), acts[1..])))
  }

  /** After acts this read copies, and gets nothing. */
  ghost predicate GetsNothing(s: System, acts: seq<Action>)
    decreases |acts|
  {
    if acts == [] then s.reader.Copying? && s.b.n == 0
    else Sized(s) && Enabled(s, acts[0]) && GetsNothing(Next(s, acts[0]), acts[1..])
  }

  ghost predicate CanComeBackEmpty(s: System) {
    exists acts :: WithinRead(s, acts) && GetsNothing(s, acts)
  }

  /**
   * A step of the worker still to come can overtake a read that begins in this state: the wake for the end of the
   * job before; the reset after it, if the read does not wait; a notification on a length saved before the ring
   * was drained, if it does.
   */
  predicate Overtakes(s: System) {
    s.worker == WakeReader || (if s.b.n > 0 then s.worker == Reset else NoticeDue(s))
  }

  /** A reader that will find bytes. */
  predicate Provided(s: System) {
    && (s.reader.Waiting? && s.b.flag ==> s.worker != WakeReader && (NoticeDue(s) ==> s.b.n > 0))
    && ((s.reader.Waiting? && s.b.ready > 0) || s.reader.Copying? ==> s.b.n > 0 && InJob(s.worker))
  }

  lemma ProvidedStep(s: System, a: Action)
    requires Inv(s) && Enabled(s, a) && Provided(s) && (s.reader.Waiting? || s.reader.Copying?)
    requires GoesOn(s) && GoesOn(Next(s, a)) && a != Stop && a != Copy
    ensures Provided(Next(s, a)) && (Next(s, a).reader.Waiting? || Next(s, a).reader.Copying?)
  {
    hide Content, CopyIn, CopyOut, NextRead, NextSave, ReadyMark, ResumeMark, Stored, Resumes;
  }

  lemma {:induction false} ProvidedGets(s: System, acts: seq<Action>)
    requires |s.b.ring| >= 5 * BLOCK_SIZE
    requires Inv(s) && Provided(s) && (s.reader.Waiting? || s.reader.Copying?) && WithinRead(s, acts)
    ensures !GetsNothing(s, acts)
    decreases |acts|
  {
    hide Inv, Next, Enabled, GoesOn;
    if acts != [] {
      ProvidedStep(s, acts[0]);
      NextInv(s, acts[0]);
      ProvidedGets(Next(s, acts[0]), acts[1..]);
    }
  }

  /**
   * The exact condition, for every read that begins while a job runs or waits to be picked up, whether it has to
   * wait or not: it can come back empty, before that job is stopped or its source ends, if and only if a step of
   * the worker still to come can overtake it.
   */
  lemma EmptyExactlyWhenOvertaken(s: System, length: nat)
    requires |s.b.ring| >= 5 * BLOCK_SIZE
    requires Inv(s) && Enabled(s, Read(length)) && s.worker != SetStopped
    requires s.b.stat == Buffering || s.b.stat == Suspend
    ensures CanComeBackEmpty(Next(s, Read(length))) <==> Overtakes(s)
  {
    ResumeLeavesRoom(|s.b.ring|);
    var s1 := Next(s, Read(length));
    NextInv(s, Read(length));
    if !Overtakes(s) {
      forall acts | WithinRead(s1, acts) ensures !GetsNothing(s1, acts) {
        ProvidedGets(s1, acts);
      }
    } else if s.b.n > 0 {
      ResetComesFirst(s1);
    } else if NoticeDue(s) {
      TokenComesEmpty(s1, NotifyReader);
    } else {
      TokenComesEmpty(s1, WakeOnStop);
    }
  }

  /** The next step gives the waiting reader its token, and the ring is empty. */
  lemma TokenComesEmpty(s: System, a: Action)
    requires Sized(s) && Enabled(s, a) && GoesOn(s) && s.b.stat == Buffering
    requires (a == NotifyReader && NoticeDue(s)) || a == WakeOnStop
    requires s.reader.Waiting? && s.b.flag && s.b.n == 0
    ensures CanComeBackEmpty(s)
  {
    hide Content, CopyIn, CopyOut, NextRead, NextSave, ReadyMark, ResumeMark;
    var s1 := Next(s, a);
    var s2 := Next(s1, TakeReady);
    NextSized(s, a);
    NextSized(s1, TakeReady);
    var acts := [a, TakeReady];
    assert acts[1..] == [TakeReady] && [TakeReady][1..] == [];
    assert WithinRead(s2, []) && GetsNothing(s2, []);
    assert WithinRead(s1, [TakeReady]) && GetsNothing(s1, [TakeReady]);
    assert WithinRead(s, acts) && GetsNothing(s, acts);
  }

  lemma ResetComesFirst(s: System)
    requires Sized(s) && GoesOn(s) && s.b.stat == Buffering && s.reader.Copying?
    requires s.worker == WakeReader || s.worker == Reset
    ensures CanComeBackEmpty(s)
  {
    hide Content, CopyIn, CopyOut, NextRead, NextSave, ReadyMark, ResumeMark;
    var s1 := if s.worker == WakeReader then Next(s, WakeOnStop) else s;
    if s.worker == WakeReader {
      NextSized(s, WakeOnStop);
    }
    var s2 := Next(s1, ClearIndices);
    assert [ClearIndices][1..] == [] && [WakeOnStop, ClearIndices][1..] == [ClearIndices];
    assert WithinRead(s2, []) && GetsNothing(s2, []);
    assert WithinRead(s1, [ClearIndices]) && GetsNothing(s1, [ClearIndices]);
    if s.worker == WakeReader {
      assert WithinRead(s, [WakeOnStop, ClearIndices]) && GetsNothing(s, [WakeOnStop, ClearIndices]);
    }
  }

  /** The same over runs: the states in which a read begins, and what it can return. */
  lemma EmptyReadsInRuns(states: seq<System>, actions: seq<Action>, i: nat)
    requires Run(states, actions) && i < |actions| && |states[0].b.ring| >= 5 * BLOCK_SIZE
    requires actions[i].Read? && states[i].worker != SetStopped
    requires states[i].b.stat == Buffering || states[i].b.stat == Suspend
    ensures CanComeBackEmpty(states[i + 1]) <==> Overtakes(states[i])
  {
    RunInv(states, actions, i);
    EmptyExactlyWhenOvertaken(states[i], actions[i].length);
  }
}
