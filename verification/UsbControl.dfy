/** The USB host's control transfer machine, and what section 8.5.3 of USB 2.0 asks of it. */
module UsbControl {

  const USBH_MAX_ERROR_COUNT := 2
  const DATA_STAGE_TIMEOUT := 5000
  const NODATA_STAGE_TIMEOUT := 50
  const HOST_IDLE := 0
  const HOST_CTRL_XFER := 7

  datatype Urb = UrbIdle | UrbDone | UrbNotReady | UrbError | UrbStall

  datatype State =
    | CtrlIdle | CtrlSetup | CtrlSetupWait
    | CtrlDataIn | CtrlDataInWait | CtrlDataOut | CtrlDataOutWait
    | CtrlStatusIn | CtrlStatusInWait | CtrlStatusOut | CtrlStatusOutWait
    | CtrlError | CtrlStalled | CtrlComplete

  datatype Status = CtrlStart | CtrlXactErr | CtrlFail | CtrlStall

  datatype Usbh = Ok | Fail | NotSupported

  /** deviceToHost is the direction bit of bmRequestType. */
  datatype Request = Request(deviceToHost: bool, wLength: nat)

  /** A transaction on the control pipe: the SETUP packet, or data in one direction. */
  datatype Packet = Setup | In(length: nat) | Out(length: nat)

  /**
   * The fields of phost->Control the machine uses, the static timeout and the two global states. acked is
   * history: the transactions the device acknowledged since the last SETUP packet was sent.
   */
  datatype Control = Control(
    state: State, status: Status, request: Request, length: nat, errorcount: nat, timer: nat, timeout: nat,
    gState: nat, gStateBkp: nat, acked: seq<Packet>)

  predicate Sound(c: Control) {
    c.errorcount < 256 && c.timer < 0x1_0000
  }

  /** An unsigned 32-bit difference against the limit. */
  predicate TimedOut(c: Control, frame: nat) {
    (frame - c.timer) % 0x1_0000_0000 > c.timeout
  }

  function Acked(c: Control, p: Packet): Control {
    c.(acked := c.acked + [p])
  }

  function Restored(c: Control): Control {
    c.(gState := c.gStateBkp)
  }

  /* USBH_HandleControl, one function per waiting state. */

  function SetupWait(c: Control, urb: Urb, frame: nat): Control {
    match urb
    case UrbDone =>
      var next :=
        if c.request.wLength != 0 then (if c.request.deviceToHost then CtrlDataIn else CtrlDataOut)
        else (if c.request.deviceToHost then CtrlStatusOut else CtrlStatusIn);
      Acked(c, Setup).(
        state := next, timer := frame % 0x1_0000,
        timeout := if c.request.wLength != 0 then DATA_STAGE_TIMEOUT else NODATA_STAGE_TIMEOUT)
    case UrbError => c.(state := CtrlError, status := CtrlXactErr)
    case _ => c
  }

  /** The state set for a finished transfer is overwritten when the timer has run out as well. */
  function DataInWait(c: Control, urb: Urb, frame: nat): Control {
    var d := if urb == UrbDone then Acked(c, In(c.length)).(state := CtrlStatusOut) else c;
    if urb == UrbStall then Restored(d)
    else if urb == UrbError || TimedOut(c, frame) then d.(state := CtrlError)
    else d
  }

  function DataOutWait(c: Control, urb: Urb): Control {
    match urb
    case UrbDone => Acked(c, Out(c.length)).(state := CtrlStatusIn)
    case UrbStall => Restored(c).(state := CtrlStalled)
    case UrbNotReady => c.(state := CtrlDataOut)
    case UrbError => c.(state := CtrlError)
    case UrbIdle => c
  }

  function StatusInWait(c: Control, urb: Urb, frame: nat): (Control, Usbh) {
    if urb == UrbDone then (Restored(Acked(c, In(0))).(state := CtrlComplete), Ok)
    else if urb == UrbError || TimedOut(c, frame) then (c.(state := CtrlError), Ok)
    else if urb == UrbStall then (Restored(c).(status := CtrlStall), NotSupported)
    else (c, Ok)
  }

  function StatusOutWait(c: Control, urb: Urb): Control {
    match urb
    case UrbDone => Restored(Acked(c, Out(0))).(state := CtrlComplete)
    case UrbNotReady => c.(state := CtrlStatusOut)
    case UrbError => c.(state := CtrlError)
    case _ => c
  }

  function ErrorStep(c: Control): (Control, Usbh) {
    var count := (c.errorcount + 1) % 256;
    if count <= USBH_MAX_ERROR_COUNT then (c.(errorcount := count, state := CtrlSetup), Ok)
    else (Restored(c).(errorcount := count, status := CtrlFail), Fail)
  }

  function Handle(control: Control, urb: Urb, frame: nat): (Control, Usbh) {
    var c := control.(status := CtrlStart);
    match c.state
    case CtrlSetup => (c.(state := CtrlSetupWait, acked := []), Ok)
    case CtrlSetupWait => (SetupWait(c, urb, frame), Ok)
    case CtrlDataIn => (c.(state := CtrlDataInWait), Ok)
    case CtrlDataInWait => (DataInWait(c, urb, frame), Ok)
    case CtrlDataOut => (c.(state := CtrlDataOutWait), Ok)
    case CtrlDataOutWait => (DataOutWait(c, urb), Ok)
    case CtrlStatusIn => (c.(state := CtrlStatusInWait), Ok)
    case CtrlStatusInWait => StatusInWait(c, urb, frame)
    case CtrlStatusOut => (c.(state := CtrlStatusOutWait), Ok)
    case CtrlStatusOutWait => (StatusOutWait(c, urb), Ok)
    case CtrlError => ErrorStep(c)
    case _ => (c, Ok)
  }

  /* Runs: transfers one after the other, as susb_control_xfer starts them, and disconnects at any time. */

  /**
   * active: susb_control_xfer is in its loop. The rest is history: how often SETUP was entered from CTRL_ERROR,
   * whether USBH_FAIL was returned, the global state before the transfer or since a disconnect, and the frame in
   * which the last SETUP was acknowledged.
   */
  datatype Host = Host(c: Control, active: bool, restarts: nat, failed: bool, before: nat, setupFrame: nat)

  datatype Action = Begin(request: Request, length: nat) | Call(urb: Urb, frame: nat) | Disconnect

  /** susb_control_xfer leaves its loop on CTRL_COMPLETE only, so that is when the next one can begin. */
  predicate Enabled(h: Host, a: Action) {
    match a
    case Begin(_, _) => !h.active
    case Call(_, _) => h.active
    case Disconnect => true
  }

  function Next(h: Host, a: Action): Host {
    match a
    case Begin(request, length) =>
      h.(c := h.c.(gStateBkp := h.c.gState, gState := HOST_CTRL_XFER, state := CtrlSetup, request := request,
                   length := length), active := true, before := h.c.gState)
    case Call(urb, frame) =>
      var (d, status) := Handle(h.c, urb, frame);
      Host(d, d.state != CtrlComplete,
           if h.c.state == CtrlError && d.state == CtrlSetup then h.restarts + 1 else h.restarts,
           h.failed || status == Fail, h.before,
           if h.c.state == CtrlSetupWait && urb == UrbDone then frame else h.setupFrame)
    case Disconnect =>
      h.(c := h.c.(gState := HOST_IDLE, gStateBkp := HOST_IDLE, state := CtrlSetup), before := HOST_IDLE)
  }

  predicate Initial(h: Host) {
    && (h.c.state == CtrlIdle || h.c.state == CtrlSetup) && h.c.errorcount == 0 && Sound(h.c) && h.c.timeout == 0
    && !h.active && h.restarts == 0 && !h.failed
  }

  ghost predicate Run(states: seq<Host>, actions: seq<Action>) {
    && |states| == |actions| + 1
    && Initial(states[0])
    && forall i | 0 <= i < |actions| ::
         Enabled(states[i], actions[i]) && states[i + 1] == Next(states[i], actions[i])
  }

  /** The acknowledged transactions of the stages before the status stage. */
  function BeforeStatus(c: Control): seq<Packet> {
    if c.request.wLength == 0 then [Setup]
    else [Setup, if c.request.deviceToHost then In(c.length) else Out(c.length)]
  }

  function StatusStage(c: Control): Packet {
    if c.request.deviceToHost then Out(0) else In(0)
  }

  /** What has been acknowledged in each state. */
  predicate Stages(c: Control) {
    match c.state
    case CtrlSetupWait => c.acked == []
    case CtrlDataIn => c.acked == [Setup] && c.request.wLength != 0 && c.request.deviceToHost
    case CtrlDataInWait => c.acked == [Setup] && c.request.wLength != 0 && c.request.deviceToHost
    case CtrlDataOut => c.acked == [Setup] && c.request.wLength != 0 && !c.request.deviceToHost
    case CtrlDataOutWait => c.acked == [Setup] && c.request.wLength != 0 && !c.request.deviceToHost
    case CtrlStatusIn => c.acked == BeforeStatus(c) && !c.request.deviceToHost
    case CtrlStatusInWait => c.acked == BeforeStatus(c) && !c.request.deviceToHost
    case CtrlStatusOut => c.acked == BeforeStatus(c) && c.request.deviceToHost
    case CtrlStatusOutWait => c.acked == BeforeStatus(c) && c.request.deviceToHost
    case CtrlComplete => c.acked == BeforeStatus(c) + [StatusStage(c)] && c.gState == c.gStateBkp
    case _ => true
  }

  /** The states between the SETUP packet's acknowledgement and the end. */
  predicate PastSetup(s: State) {
    || s == CtrlDataIn || s == CtrlDataInWait || s == CtrlDataOut || s == CtrlDataOutWait
    || s == CtrlStatusIn || s == CtrlStatusInWait || s == CtrlStatusOut || s == CtrlStatusOutWait
  }

  /** How long each request may take after its SETUP, counted from the frame of the acknowledgement. */
  predicate Timed(h: Host) {
    PastSetup(h.c.state) ==>
      h.c.timeout == (if h.c.request.wLength != 0 then 5000 else 50) && h.c.timer == h.setupFrame % 0x1_0000
  }

  predicate Inv(h: Host) {
    && Timed(h) && (h.active || h.c.state == CtrlComplete ==> h.c.gStateBkp == h.before)
    && Sound(h.c) && Stages(h.c) && h.c.timeout <= DATA_STAGE_TIMEOUT
    && (h.active ==> h.c.state != CtrlIdle && h.c.state != CtrlComplete)
    && (!h.failed ==> h.restarts == h.c.errorcount <= 2)
  }

  lemma HandleStages(c: Control, urb: Urb, frame: nat)
    requires Sound(c) && Stages(c) && c.timeout <= DATA_STAGE_TIMEOUT
    ensures var d := Handle(c, urb, frame).0;
            Sound(d) && Stages(d) && d.timeout <= DATA_STAGE_TIMEOUT && (d.state == CtrlIdle <==> c.state == CtrlIdle)
  {
    hide TimedOut;
  }

  lemma HandleCounts(c: Control, urb: Urb, frame: nat)
    requires Sound(c)
    ensures var (d, status) := Handle(c, urb, frame);
            if c.state == CtrlError then
              && d.errorcount == (c.errorcount + 1) % 256
              && (d.state == CtrlSetup <==> d.errorcount <= USBH_MAX_ERROR_COUNT)
              && (status == Fail <==> d.errorcount > USBH_MAX_ERROR_COUNT)
            else d.errorcount == c.errorcount && status != Fail
  {
    hide TimedOut;
  }

  lemma NextInv(h: Host, a: Action)
    requires Inv(h) && Enabled(h, a)
    ensures Inv(Next(h, a))
  {
    match a
    case Call(urb, frame) =>
      HandleTimed(h, urb, frame);
      hide Handle, Stages, Timed;
      HandleStages(h.c, urb, frame);
      HandleCounts(h.c, urb, frame);
    case _ =>
  }

  lemma HandleTimed(h: Host, urb: Urb, frame: nat)
    requires Timed(h) && Enabled(h, Call(urb, frame))
    ensures Timed(Next(h, Call(urb, frame))) && Handle(h.c, urb, frame).0.gStateBkp == h.c.gStateBkp
  {
    hide TimedOut;
  }

  lemma {:induction false} RunInv(states: seq<Host>, actions: seq<Action>, i: nat)
    requires Run(states, actions) && i < |states|
    ensures Inv(states[i])
  {
    if i > 0 {
      hide Next, Enabled, Inv;
      RunInv(states, actions, i - 1);
      NextInv(states[i - 1], actions[i - 1]);
    }
  }

  /**
   * A transfer completes only when, since the last SETUP packet, the device acknowledged the SETUP, then a
   * data stage in the request's direction if and only if wLength is not zero, then a zero-length status
   * stage in the direction opposite to the direction bit; nothing else, nothing twice. The global state is
   * then what it was before the transfer, or since a disconnect.
   */
  lemma CompleteMeansAllStages(states: seq<Host>, actions: seq<Action>, i: nat)
    requires Run(states, actions) && i < |states| && states[i].c.state == CtrlComplete
    ensures states[i].c.gState == states[i].before
    ensures var c := states[i].c;
            var toHost := c.request.deviceToHost;
            c.acked == [Setup]
                     + (if c.request.wLength == 0 then [] else if toHost then [In(c.length)] else [Out(c.length)])
                     + [if toHost then Out(0) else In(0)]
  {
    RunInv(states, actions, i);
  }

  /** The stages of section 8.5.3: without a data stage the status stage is always IN. */
  function StandardStages(c: Control): seq<Packet> {
    if c.request.wLength == 0 then [Setup, In(0)]
    else if c.request.deviceToHost then [Setup, In(c.length), Out(0)]
    else [Setup, Out(c.length), In(0)]
  }

  /** A completed transfer went by the standard exactly when it was not a device-to-host request without data. */
  lemma StandardExceptEmptyIn(states: seq<Host>, actions: seq<Action>, i: nat)
    requires Run(states, actions) && i < |states| && states[i].c.state == CtrlComplete
    ensures states[i].c.acked == StandardStages(states[i].c) <==>
            !(states[i].c.request.wLength == 0 && states[i].c.request.deviceToHost)
  {
    CompleteMeansAllStages(states, actions, i);
    var c := states[i].c;
    if c.request.wLength == 0 && c.request.deviceToHost {
      assert c.acked[1] == Out(0);
    }
  }

  /** Before the first USBH_FAIL there are at most USBH_MAX_ERROR_COUNT restarts, over all transfers together. */
  lemma RestartsAreBounded(states: seq<Host>, actions: seq<Action>, i: nat)
    requires Run(states, actions) && i < |states| && !states[i].failed
    ensures states[i].restarts == states[i].c.errorcount <= 2
  {
    RunInv(states, actions, i);
  }

  /** A transfer begins with its SETUP packet, in the state HOST_CTRL_XFER; a disconnect sends it back there. */
  lemma TransferBegins(states: seq<Host>, actions: seq<Action>, i: nat)
    requires Run(states, actions) && i < |actions|
    ensures var h, t := states[i], states[i + 1];
            && (actions[i].Begin? ==>
                  && !h.active && t.active && t.c.state == CtrlSetup && t.c.gState == 7 && t.before == h.c.gState
                  && t.c.request == actions[i].request && t.c.length == actions[i].length)
            && (Enabled(h, Disconnect) && Next(h, Disconnect).c.state == CtrlSetup
                && Next(h, Disconnect).active == h.active && Next(h, Disconnect).c.gState == 0)
  {
  }

  /* What one call tells its caller. */

  /**
   * A data-in or status-in stage that is neither answered nor refused is given up exactly when more than 5000 frames,
   * or 50 for a request without data, have gone by since the SETUP was acknowledged, or the 16-bit frame counter
   * has wrapped since.
   */
  lemma TimesOutExactly(states: seq<Host>, actions: seq<Action>, i: nat, urb: Urb, frame: nat)
    requires Run(states, actions) && i < |states| && states[i].setupFrame < 0x1_0000 && frame < 0x1_0000
    requires states[i].c.state == CtrlDataInWait || states[i].c.state == CtrlStatusInWait
    requires urb == UrbIdle || urb == UrbNotReady
    ensures var h := states[i];
            Handle(h.c, urb, frame).0.state == CtrlError <==>
            frame < h.setupFrame || frame - h.setupFrame > if h.c.request.wLength != 0 then 5000 else 50
  {
    RunInv(states, actions, i);
    TimeoutOnWrap(states[i].c, frame);
    TimeoutOnWrap(states[i].c.(status := CtrlStart), frame);
  }

  /**
   * A call returns USBH_FAIL exactly when it gives up, with the restarts used up, and USBH_NOT_SUPPORTED exactly when
   * the status-in stage is stalled in time; the global state is then what it was before the transfer.
   */
  lemma ResultTells(states: seq<Host>, actions: seq<Action>, i: nat, urb: Urb, frame: nat)
    requires Run(states, actions) && i < |states| && states[i].active
    ensures var h := states[i];
            var (d, result) := Handle(h.c, urb, frame);
            && (result == Fail <==> h.c.state == CtrlError && 2 <= h.c.errorcount < 255)
            && (result == NotSupported <==>
                  h.c.state == CtrlStatusInWait && urb == UrbStall && d.state == CtrlStatusInWait)
            && (result != Ok ==> d.gState == h.before)
            && (d.status == CtrlFail <==> result == Fail) && (d.status == CtrlStall <==> result == NotSupported)
            && (d.status == CtrlXactErr <==> h.c.state == CtrlSetupWait && urb == UrbError)
  {
    hide TimedOut;
    RunInv(states, actions, i);
  }

  ghost predicate Reachable(h: Host) {
    exists states, actions :: Run(states, actions) && states[|actions|] == h
  }

  lemma ReachableInitial(h: Host)
    requires Initial(h)
    ensures Reachable(h)
  {
    var actions: seq<Action> := [];
    assert Run([h], actions);
  }

  lemma ReachableNext(h: Host, a: Action)
    requires Reachable(h) && Enabled(h, a)
    ensures Reachable(Next(h, a))
  {
    hide Enabled, Next, Initial;
    var states, actions :| Run(states, actions) && states[|actions|] == h;
    assert Run(states + [Next(h, a)], actions + [a]);
  }

  lemma ReachableInv(h: Host)
    requires Reachable(h)
    ensures Inv(h)
  {
    var states, actions :| Run(states, actions) && states[|actions|] == h;
    RunInv(states, actions, |actions|);
  }

  /* When the caller's loop ends. */

  /** The machine after a sequence of calls, each with its answer and frame number. */
  function Calls(c: Control, urbs: seq<(Urb, nat)>): Control
    decreases |urbs|
  {
    if urbs == [] then c else Calls(Handle(c, urbs[0].0, urbs[0].1).0, urbs[1..])
  }

  /** A device that acknowledges everything at once takes this many calls at most. */
  function CallsLeft(c: Control): nat
    requires Sound(c)
  {
    match c.state
    case CtrlComplete => 0
    case CtrlStatusInWait => 1
    case CtrlStatusOutWait => 1
    case CtrlStatusIn => 2
    case CtrlStatusOut => 2
    case CtrlDataInWait => 3
    case CtrlDataOutWait => 3
    case CtrlDataIn => 4
    case CtrlDataOut => 4
    case CtrlSetupWait => 5
    case CtrlSetup => 6
    case _ => 7 + (if c.errorcount < USBH_MAX_ERROR_COUNT then 0 else 255 - c.errorcount)
  }

  lemma {:induction false} AcknowledgedEnds(c: Control) returns (urbs: seq<(Urb, nat)>)
    requires Sound(c) && c.state != CtrlIdle && c.state != CtrlStalled
    ensures |urbs| <= CallsLeft(c) && Calls(c, urbs).state == CtrlComplete
    decreases CallsLeft(c)
  {
    if c.state == CtrlComplete {
      urbs := [];
    } else {
      var d := Handle(c, UrbDone, c.timer).0;
      var rest := AcknowledgedEnds(d);
      urbs := [(UrbDone, c.timer)] + rest;
      assert urbs[1..] == rest;
    }
  }

  lemma {:induction false} StoppedForGood(c: Control, urbs: seq<(Urb, nat)>)
    requires c.state == CtrlStalled || c.state == CtrlIdle
    ensures Calls(c, urbs).state == c.state
    decreases |urbs|
  {
    if urbs != [] {
      StoppedForGood(Handle(c, urbs[0].0, urbs[0].1).0, urbs[1..]);
    }
  }

  /**
   * From a state of the loop the transfer can still complete, for some behaviour of the device, exactly when
   * it has not entered CTRL_STALLED; from CTRL_ERROR with any error count, too.
   */
  lemma CanCompleteExactly(h: Host)
    requires Reachable(h) && h.active
    ensures (exists urbs :: Calls(h.c, urbs).state == CtrlComplete) <==> h.c.state != CtrlStalled
  {
    ReachableInv(h);
    if h.c.state != CtrlStalled {
      var urbs := AcknowledgedEnds(h.c);
    } else {
      forall urbs ensures Calls(h.c, urbs).state != CtrlComplete {
        StoppedForGood(h.c, urbs);
      }
    }
  }

  /** One call enters CTRL_STALLED exactly on a stall of the data-out stage; a stall elsewhere does not. */
  lemma EntersStalledExactly(c: Control, urb: Urb, frame: nat)
    requires c.state != CtrlStalled
    ensures Handle(c, urb, frame).0.state == CtrlStalled <==> c.state == CtrlDataOutWait && urb == UrbStall
  {
  }

  /** The answers that keep a state where it is, whatever the frame number. */
  predicate HangsOn(c: Control, urb: Urb) {
    match c.state
    case CtrlSetupWait => urb == UrbIdle || urb == UrbNotReady || urb == UrbStall
    case CtrlDataInWait => urb == UrbStall
    case CtrlDataOutWait => urb == UrbIdle
    case CtrlStatusOutWait => urb == UrbIdle || urb == UrbStall
    case CtrlError => 2 <= c.errorcount < 255
    case CtrlStalled => true
    case CtrlIdle => true
    case CtrlComplete => true
    case _ => false
  }

  lemma HangStays(c: Control, urb: Urb, frame: nat)
    requires Sound(c) && HangsOn(c, urb)
    ensures Handle(c, urb, frame).0.state == c.state
  {
    hide TimedOut;
  }

  lemma LateMovesOn(c: Control, urb: Urb, late: nat)
    requires Sound(c) && !HangsOn(c, urb) && TimedOut(c.(status := CtrlStart), late)
    ensures Handle(c, urb, late).0.state != c.state
  {
    hide TimedOut;
  }

  /**
   * Those are all of them: with any other answer there is a frame number at which the call moves on. Only the
   * data-in and status-in stages look at the timer, and data-in not when it is stalled.
   */
  lemma HangsExactly(h: Host, urb: Urb)
    requires Reachable(h)
    ensures (forall frame: nat | frame < 0x1_0000 :: Handle(h.c, urb, frame).0.state == h.c.state)
            <==> HangsOn(h.c, urb)
  {
    hide Handle, HangsOn;
    ReachableInv(h);
    var late := if h.c.timer > 0 then 0 else h.c.timeout + 1;
    TimeoutOnWrap(h.c, late);
    if HangsOn(h.c, urb) {
      forall frame: nat | frame < 0x1_0000 ensures Handle(h.c, urb, frame).0.state == h.c.state {
        HangStays(h.c, urb, frame);
      }
    } else {
      LateMovesOn(h.c, urb, late);
    }
  }

  /** A device that keeps giving such an answer holds the caller in its loop for ever, error counts apart. */
  lemma {:induction false} HungForGood(c: Control, urbs: seq<(Urb, nat)>, urb: Urb)
    requires HangsOn(c, urb) && c.state != CtrlError
    requires forall i :: 0 <= i < |urbs| ==> urbs[i].0 == urb
    ensures Calls(c, urbs).state == c.state
    decreases |urbs|
  {
    if urbs != [] {
      var d := Handle(c, urbs[0].0, urbs[0].1).0;
      assert d.state == c.state && HangsOn(d, urb);
      HungForGood(d, urbs[1..], urb);
    }
  }

  /** The states of a stage that is sent again as long as the device answers NAK, and the other one of each pair. */
  predicate Resends(s: State) {
    s == CtrlDataOut || s == CtrlDataOutWait || s == CtrlStatusOut || s == CtrlStatusOutWait
  }

  function Turned(s: State): State {
    match s
    case CtrlDataOut => CtrlDataOutWait
    case CtrlDataOutWait => CtrlDataOut
    case CtrlStatusOut => CtrlStatusOutWait
    case CtrlStatusOutWait => CtrlStatusOut
    case _ => s
  }

  /** Neither of two calls moves at all, or an out stage is refused with NAK and sent again. */
  predicate ComesBack(c: Control, urb: Urb) {
    || (HangsOn(c, urb) && (c.state == CtrlError ==> c.errorcount < 254))
    || (urb == UrbNotReady && Resends(c.state))
  }

  lemma TwoCallsComeBack(c: Control, urb: Urb, f: nat, g: nat)
    requires Sound(c) && ComesBack(c, urb)
    ensures Handle(Handle(c, urb, f).0, urb, g).0.state == c.state
  {
    hide TimedOut;
    var d := Handle(c, urb, f).0;
    assert d.state == if HangsOn(c, urb) then c.state else Turned(c.state);
  }

  lemma TwoCallsMoveOn(c: Control, urb: Urb, late: nat)
    requires Sound(c) && !ComesBack(c, urb) && TimedOut(c.(status := CtrlStart), late)
    ensures Handle(Handle(c, urb, late).0, urb, late).0.state != c.state
  {
    hide TimedOut;
    var d := Handle(c, urb, late).0;
    assert HangsOn(c, urb) || d.state != c.state;
  }

  /**
   * Two calls with the same answer lead back to the state they began in, whatever the frame numbers, exactly in
   * those cases; the count of CTRL_ERROR must not wrap meanwhile.
   */
  lemma ComesBackExactly(h: Host, urb: Urb)
    requires Reachable(h)
    ensures (forall f: nat, g: nat | f < 0x1_0000 && g < 0x1_0000 ::
               Handle(Handle(h.c, urb, f).0, urb, g).0.state == h.c.state) <==> ComesBack(h.c, urb)
  {
    hide Handle, ComesBack;
    ReachableInv(h);
    var late := if h.c.timer > 0 then 0 else h.c.timeout + 1;
    TimeoutOnWrap(h.c, late);
    if ComesBack(h.c, urb) {
      forall f: nat, g: nat | f < 0x1_0000 && g < 0x1_0000
        ensures Handle(Handle(h.c, urb, f).0, urb, g).0.state == h.c.state
      {
        TwoCallsComeBack(h.c, urb, f, g);
      }
    } else {
      TwoCallsMoveOn(h.c, urb, late);
    }
  }

  /** A device that answers NAK for ever is sent the same stage for ever: there is no time-out and no error count. */
  lemma {:induction false} ResentForGood(c: Control, urbs: seq<(Urb, nat)>)
    requires Resends(c.state) && forall i :: 0 <= i < |urbs| ==> urbs[i].0 == UrbNotReady
    ensures var d := Calls(c, urbs);
            && d.state == (if |urbs| % 2 == 0 then c.state else Turned(c.state))
            && d.state != CtrlComplete && d.errorcount == c.errorcount && d.acked == c.acked
    decreases |urbs|
  {
    if urbs != [] {
      ResentForGood(Handle(c, urbs[0].0, urbs[0].1).0, urbs[1..]);
    }
  }

  /* Runs that get there. */

  function Transfer(h: Host, request: Request, length: nat): Host {
    Next(Next(Next(h, Begin(request, length)), Call(UrbIdle, 0)), Call(UrbDone, 0))
  }

  lemma TransferReached(h: Host, request: Request, length: nat)
    requires Reachable(h) && !h.active
    ensures Reachable(Transfer(h, request, length)) && Transfer(h, request, length).active
  {
    ReachableNext(h, Begin(request, length));
    var h1 := Next(h, Begin(request, length));
    ReachableNext(h1, Call(UrbIdle, 0));
    ReachableNext(Next(h1, Call(UrbIdle, 0)), Call(UrbDone, 0));
  }

  /** A stalled data-out stage: from any initial state a run ends in CTRL_STALLED with the caller in its loop. */
  lemma StalledIsReached(h: Host)
    requires Initial(h)
    ensures exists t :: Reachable(t) && t.active && t.c.state == CtrlStalled
  {
    ReachableInitial(h);
    TransferReached(h, Request(false, 8), 8);
    var h1 := Transfer(h, Request(false, 8), 8);
    ReachableNext(h1, Call(UrbIdle, 0));
    var h2 := Next(h1, Call(UrbIdle, 0));
    ReachableNext(h2, Call(UrbStall, 0));
    assert Next(h2, Call(UrbStall, 0)).c.state == CtrlStalled;
  }

  /** From any initial state a run comes to a data-out stage that the device can refuse for ever. */
  lemma ResendingIsReached(h: Host)
    requires Initial(h)
    ensures exists t :: Reachable(t) && t.active && t.c.state == CtrlDataOut
                        && forall urbs: seq<(Urb, nat)> :: (forall i :: 0 <= i < |urbs| ==> urbs[i].0 == UrbNotReady)
                                          ==> Calls(t.c, urbs).state != CtrlComplete
  {
    ReachableInitial(h);
    TransferReached(h, Request(false, 8), 8);
    var t := Transfer(h, Request(false, 8), 8);
    forall urbs: seq<(Urb, nat)> | forall i :: 0 <= i < |urbs| ==> urbs[i].0 == UrbNotReady
      ensures Calls(t.c, urbs).state != CtrlComplete
    {
      ResentForGood(t.c, urbs);
    }
  }

  /** A device-to-host request without data completes with a status stage in the wrong direction. */
  lemma EmptyInIsReached(h: Host)
    requires Initial(h)
    ensures exists t :: Reachable(t) && t.c.state == CtrlComplete && t.c.acked != StandardStages(t.c)
  {
    ReachableInitial(h);
    TransferReached(h, Request(true, 0), 0);
    var h1 := Transfer(h, Request(true, 0), 0);
    ReachableNext(h1, Call(UrbIdle, 0));
    var h2 := Next(h1, Call(UrbIdle, 0));
    ReachableNext(h2, Call(UrbDone, 0));
    var t := Next(h2, Call(UrbDone, 0));
    assert t.c.acked == [Setup, Out(0)] && StandardStages(t.c) == [Setup, In(0)];
    assert t.c.acked[1] != StandardStages(t.c)[1];
  }

  /** One more failed SETUP, from CTRL_SETUP back to CTRL_ERROR. */
  lemma SetupFails(h: Host) returns (t: Host)
    requires Reachable(h) && h.active && h.c.state == CtrlSetup
    ensures Reachable(t) && t.active && t.c.state == CtrlError && t.c.errorcount == h.c.errorcount
    ensures t.failed == h.failed
  {
    hide Reachable;
    ReachableNext(h, Call(UrbIdle, 0));
    var h1 := Next(h, Call(UrbIdle, 0));
    ReachableNext(h1, Call(UrbError, 0));
    t := Next(h1, Call(UrbError, 0));
  }

  lemma ErrorRestarts(h: Host) returns (t: Host)
    requires Reachable(h) && h.active && h.c.state == CtrlError && h.c.errorcount < USBH_MAX_ERROR_COUNT
    ensures Reachable(t) && t.active && t.c.state == CtrlSetup && t.c.errorcount == h.c.errorcount + 1
    ensures t.failed == h.failed
  {
    hide Reachable;
    ReachableNext(h, Call(UrbIdle, 0));
    t := Next(h, Call(UrbIdle, 0));
  }

  /** Three failed SETUPs: the restarts are used up, and the next call returns USBH_FAIL. */
  lemma FailureIsReached(h: Host)
    requires Initial(h)
    ensures exists t :: Reachable(t) && t.active && !t.failed && t.c.state == CtrlError
                        && t.c.errorcount == USBH_MAX_ERROR_COUNT && Next(t, Call(UrbIdle, 0)).failed
  {
    hide Reachable, Handle;
    ReachableInitial(h);
    ReachableNext(h, Begin(Request(false, 0), 0));
    var t := SetupFails(Next(h, Begin(Request(false, 0), 0)));
    t := ErrorRestarts(t);
    t := SetupFails(t);
    t := ErrorRestarts(t);
    t := SetupFails(t);
    assert Next(t, Call(UrbIdle, 0)).failed by { LastCallFails(t); }
  }

  lemma LastCallFails(h: Host)
    requires h.c.state == CtrlError && h.c.errorcount == USBH_MAX_ERROR_COUNT
    ensures Next(h, Call(UrbIdle, 0)).failed
  {
  }

  /**
   * USBH_FAIL is not final. The caller ignores it and calls again; the 8-bit error count goes on, and exactly
   * when it wraps to zero the transfer starts over.
   */
  lemma {:induction false} FailedTransferRestarts(c: Control, urbs: seq<(Urb, nat)>)
    requires c.state == CtrlError && 2 <= c.errorcount < 256
    requires |urbs| <= 256 - c.errorcount
    ensures Calls(c, urbs).state == if |urbs| == 256 - c.errorcount then CtrlSetup else CtrlError
    ensures |urbs| < 256 - c.errorcount ==> Calls(c, urbs).errorcount == c.errorcount + |urbs|
    decreases |urbs|
  {
    if urbs != [] {
      var d := Handle(c, urbs[0].0, urbs[0].1).0;
      if c.errorcount < 255 {
        FailedTransferRestarts(d, urbs[1..]);
      } else {
        assert urbs[1..] == [];
      }
    }
  }

  /** With 16-bit frame numbers a transfer times out when it took too long, and also whenever the counter wrapped. */
  lemma TimeoutOnWrap(c: Control, frame: nat)
    requires Sound(c) && frame < 0x1_0000 && c.timeout < 0x1_0000
    ensures TimedOut(c, frame) <==> frame < c.timer || frame - c.timer > c.timeout
  {
    if frame < c.timer {
      assert (frame - c.timer) % 0x1_0000_0000 == frame - c.timer + 0x1_0000_0000;
    }
  }

  /** The driver's fields in place. */
  class HostControl {
    var state: State
    var status: Status
    var request: Request
    var length: nat
    var errorcount: nat
    var timer: nat
    var timeout: nat
    var gState: nat
    var gStateBkp: nat
    ghost var acked: seq<Packet>

    ghost function Abs(): Control
      reads this
    {
      Control(state, status, request, length, errorcount, timer, timeout, gState, gStateBkp, acked)
    }

    /** The static structure, all zeros. */
    constructor ()
      ensures Initial(Host(Abs(), false, 0, false, 0, 0)) && state == CtrlIdle && gState == HOST_IDLE
    {
      state, status, request, length := CtrlIdle, CtrlStart, Request(false, 0), 0;
      errorcount, timer, timeout, acked := 0, 0, 0, [];
      gState, gStateBkp := HOST_IDLE, HOST_IDLE;
    }

    /** USBH_DeInit, also called by susb_disconnect, which may interrupt a transfer. */
    method DeInit()
      modifies this
      ensures Abs() == Next(Host(old(Abs()), false, 0, false, 0, 0), Disconnect).c
    {
      gState, gStateBkp := HOST_IDLE, HOST_IDLE;
      state := CtrlSetup;
    }

    /** What susb_control_xfer does before its loop. */
    method Prepare(request: Request, length: nat)
      modifies this
      ensures Abs() == Next(Host(old(Abs()), false, 0, false, 0, 0), Begin(request, length)).c
    {
      gStateBkp := gState;
      gState := HOST_CTRL_XFER;
      state := CtrlSetup;
      this.request, this.length := request, length;
    }

    /** The part of USBH_HandleControl that waits for an acknowledgement. */
    method Await(urb: Urb, frame: nat) returns (result: Usbh)
      requires state == CtrlSetupWait || state == CtrlDataInWait || state == CtrlDataOutWait
            || state == CtrlStatusInWait || state == CtrlStatusOutWait
      requires status == CtrlStart
      modifies this
      ensures (Abs(), result) == Handle(old(Abs()), urb, frame)
    {
      result := Ok;
      if state == CtrlSetupWait {
        if urb == UrbDone {
          acked := acked + [Setup];
          if request.wLength != 0 {
            timeout := DATA_STAGE_TIMEOUT;
            state := if request.deviceToHost then CtrlDataIn else CtrlDataOut;
          } else {
            timeout := NODATA_STAGE_TIMEOUT;
            state := if request.deviceToHost then CtrlStatusOut else CtrlStatusIn;
          }
          timer := frame % 0x1_0000;
        } else if urb == UrbError {
          state := CtrlError;
          status := CtrlXactErr;
        }
      } else if state == CtrlDataInWait {
        if urb == UrbDone {
          acked := acked + [In(length)];
          state := CtrlStatusOut;
        }
        if urb == UrbStall {
          gState := gStateBkp;
        } else if urb == UrbError {
          state := CtrlError;
        } else if (frame - timer) % 0x1_0000_0000 > timeout {
          state := CtrlError;
        }
      } else if state == CtrlDataOutWait {
        if urb == UrbDone {
          acked := acked + [Out(length)];
          state := CtrlStatusIn;
        } else if urb == UrbStall {
          gState := gStateBkp;
          state := CtrlStalled;
        } else if urb == UrbNotReady {
          state := CtrlDataOut;
        } else if urb == UrbError {
          state := CtrlError;
        }
      } else if state == CtrlStatusInWait {
        if urb == UrbDone {
          acked := acked + [In(0)];
          gState := gStateBkp;
          state := CtrlComplete;
        } else if urb == UrbError {
          state := CtrlError;
        } else if (frame - timer) % 0x1_0000_0000 > timeout {
          state := CtrlError;
        } else if urb == UrbStall {
          gState := gStateBkp;
          status := CtrlStall;
          result := NotSupported;
        }
      } else {
        if urb == UrbDone {
          acked := acked + [Out(0)];
          gState := gStateBkp;
          state := CtrlComplete;
        } else if urb == UrbNotReady {
          state := CtrlStatusOut;
        } else if urb == UrbError {
          state := CtrlError;
        }
      }
    }

    /** USBH_HandleControl */
    method HandleControl(urb: Urb, frame: nat) returns (result: Usbh)
      requires errorcount < 256
      modifies this
      ensures (Abs(), result) == Handle(old(Abs()), urb, frame)
    {
      status := CtrlStart;
      result := Ok;
      match state
      case CtrlSetup =>
        state := CtrlSetupWait;
        acked := [];
      case CtrlDataIn => state := CtrlDataInWait;
      case CtrlDataOut => state := CtrlDataOutWait;
      case CtrlStatusIn => state := CtrlStatusInWait;
      case CtrlStatusOut => state := CtrlStatusOutWait;
      case CtrlError =>
        errorcount := (errorcount + 1) % 256;
        if errorcount <= USBH_MAX_ERROR_COUNT {
          state := CtrlSetup;
        } else {
          status := CtrlFail;
          gState := gStateBkp;
          result := Fail;
        }
      case CtrlIdle =>
      case CtrlStalled =>
      case CtrlComplete =>
      case _ => result := Await(urb, frame);
    }
  }
}
