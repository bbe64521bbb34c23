/**
 * The net buffer as a transition system: the reader, the worker thread and the application share one ring,
 * two semaphores and a four-valued status. One action is one atomic step.
 */
module NetProtocol {
  import opened Ring

  const BLOCK_SIZE := 4096

  datatype Stat = Stopped | Buffering | Suspend | Stopping

  /** The shared fields. ready and resume are the semaphore counts, jobs the messages in the queue. */
  datatype Buf = Buf(
    stat: Stat, r: nat, w: nat, n: nat, ring: seq<int>,
    flag: bool, ready: nat, resume: nat, jobs: nat)

  predicate ValidBuf(b: Buf) {
    b.r < |b.ring| && b.w < |b.ring|
  }

  function ReadyMark(size: nat): nat {
    size * 90 / 100
  }

  function ResumeMark(size: nat): nat {
    size * 80 / 100
  }

  /* The reader's half. */

  predicate MustWait(b: Buf) {
    b.n == 0 && (b.stat == Buffering || b.stat == Suspend)
  }

  function Taken(b: Buf, length: nat): nat {
    if length > b.n then b.n else length
  }

  /** The bytes one read returns. */
  function ReadBytes(b: Buf, length: nat): seq<int>
    requires ValidBuf(b) && length <= |b.ring|
  {
    CopyOut(b.ring, b.r, Taken(b, length))
  }

  /** Does this read wake a suspended worker? */
  predicate Wakes(b: Buf, length: nat) {
    b.n > 0 && b.stat == Suspend && b.n - Taken(b, length) < ResumeMark(|b.ring|)
  }

  function AfterRead(b: Buf, length: nat): Buf
    requires ValidBuf(b) && length <= |b.ring|
  {
    if b.n == 0 then b
    else
      b.(r := NextRead(|b.ring|, b.r, Taken(b, length)), n := b.n - Taken(b, length),
         stat := if Wakes(b, length) then Buffering else b.stat)
  }

  /* The application's half. */

  function AfterStop(b: Buf): Buf {
    if b.stat == Suspend then b.(stat := Stopping, resume := b.resume + 1)
    else if b.stat == Buffering then b.(stat := Stopping)
    else b
  }

  /* The worker's half. */

  predicate NoRoom(b: Buf, block: seq<int>) {
    |b.ring| - b.n < |block|
  }

  function AfterSave(b: Buf, block: seq<int>): Buf
    requires ValidBuf(b) && |block| <= |b.ring|
  {
    b.(ring := CopyIn(b.ring, b.w, block), w := NextSave(|b.ring|, b.w, |block|), n := b.n + |block|)
  }

  predicate Notifies(b: Buf, saved: nat) {
    b.stat == Buffering && saved >= ReadyMark(|b.ring|) && b.flag
  }

  function AfterNotify(b: Buf): Buf {
    b.(flag := false, ready := b.ready + 1)
  }

  function AfterReset(b: Buf): Buf {
    b.(n := 0, r := 0, w := 0)
  }

  /* The whole system. */

  datatype Reader = Idle | Waiting(length: nat) | Copying(length: nat) | Releasing

  datatype Worker =
    | NoJob
    | Top
    | Test(block: seq<int>)
    | Blocked(block: seq<int>)
    | Save(block: seq<int>)
    | Notify(saved: nat)
    | SetStopped
    | WakeReader
    | Reset

  /**
   * fetched and delivered are history: what the fetches and the reads since the last start_job returned.
   * early is how many of the bytes delivered were read before the worker picked the job up.
   * sending: start_job has set the status but not yet put its message in the queue.
   */
  datatype System = System(
    b: Buf, reader: Reader, worker: Worker, sending: bool, fetched: seq<int>, delivered: seq<int>, early: nat)

  datatype Action =
    | Read(length: nat) | TakeReady | Copy | ReleaseResume
    | Start | Send | Stop
    | Receive | SeeStop | Fetch(block: seq<int>) | TestRoom | TakeResume | SaveBlock | NotifyReader
    | MarkStopped | WakeOnStop | ClearIndices

  predicate Enabled(s: System, a: Action) {
    match a
    case Read(length) => s.reader == Idle && length <= |s.b.ring|
    case TakeReady => s.reader.Waiting? && s.b.ready > 0
    case Copy => s.reader.Copying?
    case ReleaseResume => s.reader == Releasing
    case Start => !s.sending
    case Send => s.sending
    case Stop => true
    case Receive => s.worker == NoJob && s.b.jobs > 0
    case SeeStop => s.worker == Top && s.b.stat == Stopping
    case Fetch(block) => s.worker == Top && s.b.stat != Stopping && |block| <= BLOCK_SIZE
    case TestRoom => s.worker.Test?
    case TakeResume => s.worker.Blocked? && s.b.resume > 0
    case SaveBlock => s.worker.Save?
    case NotifyReader => s.worker.Notify?
    case MarkStopped => s.worker == SetStopped
    case WakeOnStop => s.worker == WakeReader
    case ClearIndices => s.worker == Reset
  }

  /** The sizes every step keeps and needs. */
  predicate Sized(s: System) {
    && ValidBuf(s.b)
    && |s.b.ring| >= BLOCK_SIZE
    && (s.reader.Waiting? || s.reader.Copying? ==> s.reader.length <= |s.b.ring|)
    && (s.worker.Test? || s.worker.Blocked? || s.worker.Save? ==> 0 < |s.worker.block| <= BLOCK_SIZE)
  }

  predicate InJob(w: Worker) {
    w != NoJob && w != WakeReader && w != Reset
  }

  function Next(s: System, a: Action): System
    requires Sized(s) && Enabled(s, a)
  {
    match a
    case Read(length) =>
      if MustWait(s.b) then s.(b := s.b.(flag := true), reader := Waiting(length))
      else s.(reader := Copying(length))
    case TakeReady => s.(b := s.b.(ready := s.b.ready - 1), reader := Copying(s.reader.length))
    case Copy =>
      var length := s.reader.length;
      var delivered := s.delivered + ReadBytes(s.b, length);
      s.(b := AfterRead(s.b, length), reader := if Wakes(s.b, length) then Releasing else Idle,
         delivered := delivered, early := if InJob(s.worker) then s.early else |delivered|)
    case ReleaseResume => s.(b := s.b.(resume := s.b.resume + 1), reader := Idle)
    case Start =>
      if s.b.stat == Stopped then
        s.(b := s.b.(stat := Buffering), sending := true, fetched := [], delivered := [], early := 0)
      else s
    case Send => s.(b := s.b.(jobs := s.b.jobs + 1), sending := false)
    case Stop => s.(b := AfterStop(s.b))
    case Receive =>
      var b := s.b.(jobs := s.b.jobs - 1);
      if b.stat == Buffering then s.(b := AfterReset(b), worker := Top)
      else s.(b := b)
    case SeeStop => s.(worker := SetStopped)
    case Fetch(block) =>
      if block == [] then s.(worker := SetStopped)
      else s.(worker := Test(block), fetched := s.fetched + block)
    case TestRoom =>
      if NoRoom(s.b, s.worker.block) then s.(b := s.b.(stat := Suspend), worker := Blocked(s.worker.block))
      else s.(worker := Save(s.worker.block))
    case TakeResume => s.(b := s.b.(resume := s.b.resume - 1), worker := Save(s.worker.block))
    case SaveBlock => s.(b := AfterSave(s.b, s.worker.block), worker := Notify(s.b.n + |s.worker.block|))
    case NotifyReader => s.(b := if Notifies(s.b, s.worker.saved) then AfterNotify(s.b) else s.b, worker := Top)
    case MarkStopped => s.(b := s.b.(stat := Stopped), worker := WakeReader)
    case WakeOnStop => s.(b := if s.b.flag then AfterNotify(s.b) else s.b, worker := Reset)
    case ClearIndices => s.(b := AfterReset(s.b), worker := NoJob)
  }

  /** The state net_buf_init leaves, with arbitrary bytes in the ring. */
  predicate Initial(s: System) {
    && |s.b.ring| >= BLOCK_SIZE
    && s.b == Buf(Stopped, 0, 0, 0, s.b.ring, false, 0, 0, 0)
    && s == System(s.b, Idle, NoJob, false, [], [], 0)
  }

  /** states is a run: each state follows from the one before by the action at the same place. */
  ghost predicate Run(states: seq<System>, actions: seq<Action>) {
    && |states| == |actions| + 1
    && Initial(states[0])
    && forall i | 0 <= i < |actions| ::
         Sized(states[i]) && Enabled(states[i], actions[i]) && states[i + 1] == Next(states[i], actions[i])
  }

  /* The invariant, in three parts. */

  /** Jobs: who may change the status, and where the one job is. */
  predicate Jobs(s: System) {
    && (InJob(s.worker) ==> s.b.stat != Stopped && s.b.jobs == 0 && !s.sending)
    && (!InJob(s.worker) ==> s.b.stat != Suspend)
    && (s.b.stat == Stopped ==> s.b.jobs == 0 && !s.sending)
    && (s.b.stat == Buffering && !InJob(s.worker) ==> s.b.jobs + (if s.sending then 1 else 0) == 1)
    && s.b.jobs + (if s.sending then 1 else 0) <= 1
    && (s.worker == SetStopped ==> s.b.stat != Suspend)
  }

  /** The resume semaphore: one token or none, and SUSPEND only with the worker waiting for it. */
  predicate Resumes(s: System) {
    && (s.b.stat == Suspend ==> s.worker.Blocked? && s.b.n >= ResumeMark(|s.b.ring|))
    && s.b.resume + (if s.reader == Releasing then 1 else 0) ==
       (if s.worker.Blocked? && s.b.stat != Suspend then 1 else 0)
    && (s.worker.Blocked? && s.b.stat == Buffering ==> s.b.n < ResumeMark(|s.b.ring|))
  }

  /** The ready semaphore: one token or a raised flag exactly while a reader waits. */
  predicate Readies(s: System) {
    && s.b.ready + (if s.b.flag then 1 else 0) == (if s.reader.Waiting? then 1 else 0)
    && (s.b.flag && s.b.stat == Stopped ==> s.worker == WakeReader)
    && (s.worker.Notify? ==> s.b.n <= s.worker.saved)
  }

  /** A flagged reader is never left behind a buffer that is already ready. Needs ten blocks of space. */
  predicate Filling(s: System) {
    s.b.flag ==>
      && s.b.stat != Suspend
      && (s.worker.Test? || s.worker.Blocked? || s.worker.Save? || (s.worker == Top && s.b.stat == Buffering)
          ==> s.b.n < ReadyMark(|s.b.ring|))
  }

  function Pending(w: Worker): seq<int> {
    match w
    case Test(block) => block
    case Blocked(block) => block
    case Save(block) => block
    case _ => []
  }

  /** A stop issued in SUSPEND lets one copy through unguarded; from there to the reset the ring is void. */
  predicate Overrun(s: System) {
    s.b.stat == Stopping && !(s.worker.Test? || s.worker.Blocked? || s.worker.Save?)
  }

  /** The bytes delivered since the worker picked the job up. */
  function Fresh(s: System): seq<int>
    requires s.early <= |s.delivered|
  {
    s.delivered[s.early..]
  }

  /** The ring holds exactly the bytes saved and not yet read, oldest first. */
  predicate Stored(s: System)
    requires ValidBuf(s.b)
  {
    && s.early <= |s.delivered|
    && (s.worker == NoJob ==> s.b.n == 0)
    && (s.b.stat == Buffering && !InJob(s.worker) ==> s.fetched == [] && s.early == |s.delivered|)
    && (InJob(s.worker) && !Overrun(s) ==>
          && s.b.n <= |s.b.ring|
          && s.b.w == Wrap(|s.b.ring|, s.b.r + s.b.n)
          && s.fetched == Fresh(s) + Content(s.b.ring, s.b.r, s.b.n) + Pending(s.worker)
          && (s.worker.Save? && s.b.stat != Stopping ==> s.b.n + |s.worker.block| <= |s.b.ring|))
  }

  predicate Inv(s: System) {
    Sized(s) && Jobs(s) && Resumes(s) && Readies(s) && Stored(s)
  }
}
