/** The verdict of a DATA send: what the modem host tells the sender.

    Senders take turns behind the in-flight lock.  A sender only queues its frame;
    a worker thread writes it later.  Nothing protects the fields they share with
    the receive thread or with the threads that close and reopen the link, so each
    assignment of any thread is a step of its own, and those of the other threads
    come in any order. */
module TxVerdict {
  import opened Bytes
  import opened ModemFrames
  import opened Options

  datatype Reason =
    | Confirmed
    | NotQueued
    | StatusNotOne
    | Aborted
    | LinkLost
    | ShuttingDown
    | BusyAndNoDone
    | NoDone

  /** The sender that holds the in-flight lock, between its assignments. */
  datatype Phase =
    | Idle
    | Entered(sender: nat)
    | EventCleared(sender: nat)
    | ResultCleared(sender: nat)
    | Ready(sender: nat)
    | Polling(sender: nat)
    | Woken(sender: nat)
    | LoopLeft(sender: nat)
    | Unconfirmed(sender: nat)

  /** A TX_DONE status and the step that stored it. */
  datatype Done = Done(at: nat, status: byte)

  /** The number a queued frame got, and the step that queued it. */
  datatype Own = Own(ticket: nat, at: nat)

  /** A finished send, with the steps at which it entered, cleared the result and
      returned; its own frame, if it was queued, and the step that had written it
      by then, if one had; and the last TX_DONE stored since the result was
      cleared. */
  datatype Sent = Sent(sender: nat, reason: Reason, entered: nat, cleared: nat, own: Option<Own>,
                       written: Option<nat>, done: Option<Done>, left: nat) {
    predicate Ok() { reason == Confirmed }
  }

  const TX_BUFFER_SIZE: nat := 1024

  /** The frames queued, by number, those a worker has taken out to write, and
      the number of the next. */
  datatype Buffer = Buffer(frames: seq<nat>, held: set<nat>, next: nat)

  /** What the control flow of the threads depends on.  `settingEvent` holds
      while the receive thread is between storing a result and setting the
      event. */
  datatype Core = Core(phase: Phase, tx: Buffer, settingEvent: bool, event: bool, result: Option<bool>,
                       degraded: bool, stopped: bool, down: bool)

  /** The rest is for the wording of a timeout and for the record: steps taken,
      the steps at which the sender entered and cleared the result, its own
      frame, the step that wrote each written frame, the last TX_DONE stored. */
  datatype Host = Host(core: Core, busySeen: bool, clock: nat, entered: nat, cleared: nat, own: Option<Own>,
                       wrote: map<nat, nat>, done: Option<Done>, sent: seq<Sent>)

  datatype Step =
    | Enter(sender: nat)
    | ClearEvent
    | ClearResult
    | ClearBusy
    | Queue(ok: bool)
    | PollEvent
    | SeeLinkLost
    | SeeShutdown
    | TimeOut
    | CheckShutdown
    | Report
    | Resolve
    | TakeFrame
    | WriteFrame(ticket: nat, ok: bool)
    | FrameArrives(frame: seq<byte>)
    | SetEvent
    | AssignDegraded(value: bool)
    | AssignStopped(value: bool)
    | AssignDown(value: bool)
    | WakeSender

  const EMPTY := Buffer([], {}, 0)

  const START := Host(Core(Idle, EMPTY, false, false, None, false, false, false), false, 0, 0, 0, None, map[], None, [])

  /** What a set event means, read from the stored result. */
  function Verdict(result: Option<bool>): Reason {
    match result
    case Some(true) => Confirmed
    case Some(false) => StatusNotOne
    case None => Aborted
  }

  /** The frame is accepted: connected, of a valid size, and with room for it. */
  predicate Accepts(c: Core, step: Step) {
    step == Queue(true) && |c.tx.frames| < TX_BUFFER_SIZE
  }

  /** Whether a step makes the current sender return. */
  predicate Leaves(c: Core, step: Step) {
    match c.phase
    case Ready(_) => step.Queue? && !Accepts(c, step)
    case Woken(_) => step.Resolve?
    case Polling(_) => step.SeeLinkLost? && (c.degraded || c.stopped)
    case LoopLeft(_) => step.CheckShutdown? && c.down
    case Unconfirmed(_) => step.Report?
    case _ => false
  }

  function ReasonFor(h: Host, step: Step): Reason {
    match step
    case Resolve => Verdict(h.core.result)
    case SeeLinkLost => LinkLost
    case CheckShutdown => ShuttingDown
    case Report => if h.busySeen then BusyAndNoDone else NoDone
    case _ => NotQueued
  }

  /** The assignments of the sender, in order. */
  function SenderMoves(c: Core, step: Step): Core {
    match c.phase
    case Idle => if step.Enter? then c.(phase := Entered(step.sender)) else c
    case Entered(s) => if step.ClearEvent? then c.(phase := EventCleared(s), event := false) else c
    case EventCleared(s) => if step.ClearResult? then c.(phase := ResultCleared(s), result := None) else c
    case ResultCleared(s) => if step.ClearBusy? then c.(phase := Ready(s)) else c
    case Ready(s) =>
      if Accepts(c, step) then
        c.(phase := Polling(s), tx := c.tx.(frames := c.tx.frames + [c.tx.next], next := c.tx.next + 1))
      else c
    case Polling(s) =>
      if step.PollEvent? && c.event then c.(phase := Woken(s))
      else if step.TimeOut? || (step.SeeShutdown? && c.down) then c.(phase := LoopLeft(s)) else c
    case LoopLeft(s) => if step.CheckShutdown? then c.(phase := Unconfirmed(s)) else c
    case _ => c
  }

  /** What other threads do to the shared fields. */
  function Surroundings(c: Core, step: Step): Core {
    match step
    case SetEvent => if c.settingEvent then c.(settingEvent := false, event := true) else c
    case AssignDegraded(value) => c.(degraded := value)
    case AssignStopped(value) => c.(stopped := value)
    case AssignDown(value) => c.(down := value)
    case WakeSender => c.(event := true)
    case TakeFrame =>
      if c.tx.frames == [] then c
      else c.(tx := c.tx.(frames := c.tx.frames[1..], held := c.tx.held + {c.tx.frames[0]}))
    case WriteFrame(ticket, _) => c.(tx := c.tx.(held := c.tx.held - {ticket}))
    case _ => c
  }

  /** The receive thread stores a TX_DONE result. */
  function Stores(c: Core, routed: Routed): Core {
    if c.settingEvent then c
    else match routed
      case TxDone(Some(status)) => c.(result := Some(status == 0x01), settingEvent := true)
      case TxDone(None) => c.(settingEvent := true)
      case _ => c
  }

  function OnFrame(h: Host, routed: Routed): Host {
    var h' := h.(core := Stores(h.core, routed));
    if h.core.settingEvent then h'
    else if routed.TxDone? && routed.status.Some? then h'.(done := Some(Done(h.clock, routed.status.value)))
    else if routed.TxBusy? then h'.(busySeen := true)
    else h'
  }

  /** The record of the current send as it returns. */
  function Returning(h: Host, step: Step): Sent
    requires !h.core.phase.Idle?
  {
    var written := if h.own.Some? && h.own.value.ticket in h.wrote then Some(h.wrote[h.own.value.ticket]) else None;
    Sent(h.core.phase.sender, ReasonFor(h, step), h.entered, h.cleared, h.own, written, h.done, h.clock)
  }

  function OnReturn(h: Host, step: Step): Host
    requires !h.core.phase.Idle?
  {
    h.(core := h.core.(phase := Idle),
       sent := h.sent + [Returning(h, step)])
  }

  /** A worker that has taken the frame out writes it. */
  predicate Writes(c: Core, step: Step) {
    step.WriteFrame? && step.ok && step.ticket in c.tx.held
  }

  function OnMove(h: Host, step: Step): Host {
    h.(core := Surroundings(SenderMoves(h.core, step), step),
       entered := if h.core.phase.Idle? && step.Enter? then h.clock else h.entered,
       own := if h.core.phase.Idle? && step.Enter? then None
              else if h.core.phase.Ready? && Accepts(h.core, step) then Some(Own(h.core.tx.next, h.clock)) else h.own,
       wrote := if Writes(h.core, step) then h.wrote[step.ticket := h.clock] else h.wrote,
       cleared := if h.core.phase.EventCleared? && step.ClearResult? then h.clock else h.cleared,
       done := if h.core.phase.EventCleared? && step.ClearResult? then None else h.done,
       busySeen := if h.core.phase.ResultCleared? && step.ClearBusy? then false else h.busySeen)
  }

  /** One step; a step that is not enabled only counts. */
  function Next(h: Host, step: Step): Host {
    (if step.FrameArrives? then OnFrame(h, Route(step.frame))
     else if Leaves(h.core, step) then OnReturn(h, step)
     else OnMove(h, step)).(clock := h.clock + 1)
  }

  function Run(h: Host, steps: seq<Step>): Host
    decreases |steps|
  {
    if steps == [] then h else Run(Next(h, steps[0]), steps[1..])
  }

  // ----- A confirmation comes from the sender's own window -----

  /** The phases after the sender has cleared the result. */
  predicate ResultOwned(p: Phase) {
    p.ResultCleared? || p.Ready? || p.Polling? || p.Woken? || p.LoopLeft? || p.Unconfirmed?
  }

  /** The phases after the sender has queued its frame. */
  predicate FrameQueued(p: Phase) {
    p.Polling? || p.Woken? || p.LoopLeft? || p.Unconfirmed?
  }

  /** The sender queued a frame after it cleared the result. */
  predicate OwnQueued(history: seq<Step>, cleared: nat, own: Option<Own>, end: nat) {
    own.Some? && cleared < own.value.at < end <= |history| && history[own.value.at] == Queue(true)
  }

  /** A stored TX_DONE is one that arrived, at its step. */
  predicate Genuine(history: seq<Step>, d: Done) {
    && d.at < |history|
    && history[d.at].FrameArrives?
    && Route(history[d.at].frame) == TxDone(Some(d.status))
  }

  predicate SentOk(history: seq<Step>, r: Sent) {
    && r.entered < r.cleared < r.left < |history|
    && history[r.entered] == Enter(r.sender) && history[r.cleared] == ClearResult
    && (r.done.Some? ==> Genuine(history, r.done.value) && r.cleared < r.done.value.at < r.left)
    && (r.reason == Confirmed ==> r.done.Some? && r.done.value.status == 0x01)
    && (r.reason == StatusNotOne ==> r.done.Some? && r.done.value.status != 0x01)
    && (r.reason == Aborted ==> r.done.None?)
    && (r.reason != NotQueued ==> OwnQueued(history, r.cleared, r.own, r.left))
  }

  /** While the sender owns the result it mirrors the last stored TX_DONE. */
  predicate ResultOk(history: seq<Step>, h: Host) {
    && (h.done.None? <==> h.core.result.None?)
    && (h.done.Some? ==>
          && Genuine(history, h.done.value)
          && h.cleared < h.done.value.at
          && h.core.result == Some(h.done.value.status == 0x01))
  }

  predicate WindowOk(history: seq<Step>, h: Host) {
    && h.clock == |history|
    && (!h.core.phase.Idle? ==> h.entered < |history| && history[h.entered] == Enter(h.core.phase.sender))
    && (ResultOwned(h.core.phase) ==>
          h.entered < h.cleared < |history| && history[h.cleared] == ClearResult && ResultOk(history, h))
    && (FrameQueued(h.core.phase) ==> OwnQueued(history, h.cleared, h.own, |history|))
  }

  ghost predicate Inv(history: seq<Step>, h: Host) {
    && WindowOk(history, h)
    && (forall i :: 0 <= i < |h.sent| ==> SentOk(history, h.sent[i]))
  }

  lemma SentStaysOk(history: seq<Step>, step: Step, r: Sent)
    requires SentOk(history, r)
    ensures SentOk(history + [step], r)
  {}

  lemma GenuineStays(history: seq<Step>, step: Step, d: Done)
    requires Genuine(history, d)
    ensures Genuine(history + [step], d)
  {}

  lemma GenuineNew(history: seq<Step>, step: Step)
    requires step.FrameArrives? && Route(step.frame).TxDone? && Route(step.frame).status.Some?
    ensures Genuine(history + [step], Done(|history|, Route(step.frame).status.value))
  {}

  /** What a frame changes of the record. */
  lemma FrameEffect(h: Host, routed: Routed)
    ensures var r := OnFrame(h, routed);
            && r == h.(core := r.core, done := r.done, busySeen := r.busySeen)
            && r.core.phase == h.core.phase && r.core.tx == h.core.tx
            && (if routed.TxDone? && routed.status.Some? && !h.core.settingEvent then
                  r.done == Some(Done(h.clock, routed.status.value)) &&
                  r.core.result == Some(routed.status.value == 0x01)
                else r.done == h.done && r.core.result == h.core.result)
  {}

  lemma FrameKeepsWindow(history: seq<Step>, h: Host, step: Step)
    requires WindowOk(history, h) && step.FrameArrives?
    ensures WindowOk(history + [step], OnFrame(h, Route(step.frame)).(clock := h.clock + 1))
  {
    hide Route, OnFrame, Genuine;
    FrameEffect(h, Route(step.frame));
    if Route(step.frame).TxDone? && Route(step.frame).status.Some? { GenuineNew(history, step); }
    if ResultOwned(h.core.phase) && h.done.Some? { GenuineStays(history, step, h.done.value); }
    assert forall i :: 0 <= i < |history| ==> (history + [step])[i] == history[i];
  }

  /** What the sender's own steps change of the record. */
  lemma MoveEffect(h: Host, step: Step)
    requires !step.FrameArrives?
    ensures var r := OnMove(h, step);
            && r == h.(core := r.core, entered := r.entered, cleared := r.cleared, own := r.own, wrote := r.wrote,
                       done := r.done, busySeen := r.busySeen)
            && (ResultOwned(h.core.phase) && ResultOwned(r.core.phase) ==>
                  && r.entered == h.entered && r.cleared == h.cleared && r.done == h.done
                  && r.core.result == h.core.result && r.core.phase.sender == h.core.phase.sender
                  && (FrameQueued(h.core.phase) ==> r.own == h.own)
                  && (!FrameQueued(h.core.phase) && FrameQueued(r.core.phase) ==>
                        step == Queue(true) && r.own == Some(Own(h.core.tx.next, h.clock))))
            && (!ResultOwned(h.core.phase) && ResultOwned(r.core.phase) ==>
                  && step == ClearResult && h.core.phase.EventCleared?
                  && r.core.phase == ResultCleared(h.core.phase.sender)
                  && r.entered == h.entered && r.cleared == h.clock && r.done == None && r.core.result == None)
            && (!ResultOwned(r.core.phase) && !r.core.phase.Idle? ==>
                  if h.core.phase.Idle? then step == Enter(r.core.phase.sender) && r.entered == h.clock
                  else r.entered == h.entered && r.core.phase.sender == h.core.phase.sender)
  {
    hide Route;
  }

  lemma MoveKeepsWindow(history: seq<Step>, h: Host, step: Step)
    requires WindowOk(history, h) && !step.FrameArrives?
    ensures WindowOk(history + [step], OnMove(h, step).(clock := h.clock + 1))
  {
    hide OnMove, Genuine;
    MoveEffect(h, step);
    if ResultOwned(h.core.phase) && h.done.Some? { GenuineStays(history, step, h.done.value); }
    var later := history + [step];
    assert forall i :: 0 <= i < |history| ==> later[i] == history[i];
    assert later[|history|] == step;
  }

  lemma ReturnIsEarned(history: seq<Step>, h: Host, step: Step)
    requires WindowOk(history, h) && Leaves(h.core, step)
    ensures SentOk(history + [step], Returning(h, step))
  {
    hide Route;
    assert forall i :: 0 <= i < |history| ==> (history + [step])[i] == history[i];
    assert ResultOk(history, h);
  }

  lemma StepKeepsInv(history: seq<Step>, h: Host, step: Step)
    requires Inv(history, h)
    ensures Inv(history + [step], Next(h, step))
  {
    hide SentOk, SenderMoves, Surroundings, Stores, Route, ReasonFor, ResultOk, Leaves;
    var h' := Next(h, step);
    if step.FrameArrives? { FrameKeepsWindow(history, h, step); }
    else if Leaves(h.core, step) { ReturnIsEarned(history, h, step); }
    else { MoveKeepsWindow(history, h, step); }
    forall i | 0 <= i < |h'.sent| ensures SentOk(history + [step], h'.sent[i]) {
      if i < |h.sent| { SentStaysOk(history, step, h.sent[i]); }
    }
  }

  lemma {:induction false} RunKeepsInv(history: seq<Step>, h: Host, steps: seq<Step>)
    requires Inv(history, h)
    ensures Inv(history + steps, Run(h, steps))
    decreases |steps|
  {
    if steps == [] {
      assert history + steps == history;
    } else {
      StepKeepsInv(history, h, steps[0]);
      RunKeepsInv(history + [steps[0]], Next(h, steps[0]), steps[1..]);
      assert history + [steps[0]] + steps[1..] == history + steps;
    }
  }

  /** Over every interleaving, a send that returns True had a TX_DONE frame
      with status 0x01 processed after it cleared the result and before it
      returned, and that was the last TX_DONE stored in between; a send that
      reports a bad status had one of those, and one that reports an abort had
      none. */
  lemma VerdictIsEarned(steps: seq<Step>, i: nat)
    requires i < |Run(START, steps).sent|
    ensures var r := Run(START, steps).sent[i];
            && r.entered < r.cleared < r.left < |steps|
            && steps[r.entered] == Enter(r.sender) && steps[r.cleared] == ClearResult
            && (r.Ok() ==>
                  && r.done.Some? && r.cleared < r.done.value.at < r.left
                  && steps[r.done.value.at].FrameArrives?
                  && Route(steps[r.done.value.at].frame) == TxDone(Some(0x01)))
            && (r.reason == Aborted ==> r.done.None?)
            && (r.reason == StatusNotOne ==> r.done.Some? && r.done.value.status != 0x01)
  {
    RunKeepsInv([], START, steps);
    assert [] + steps == steps;
    assert SentOk(steps, Run(START, steps).sent[i]);
  }

  lemma {:induction false} RunAppend(h: Host, a: seq<Step>, b: seq<Step>)
    ensures Run(h, a + b) == Run(Run(h, a), b)
    decreases |a|
  {
    if a == [] {
      assert a + b == b;
    } else {
      assert (a + b)[0] == a[0] && (a + b)[1..] == a[1..] + b;
      RunAppend(Next(h, a[0]), a[1..], b);
    }
  }

  lemma RunSnoc(before: seq<Step>, last: Step)
    ensures Run(START, before + [last]) == Next(Run(START, before), last)
  {
    hide Next;
    RunAppend(START, before, [last]);
    assert [last][1..] == [];
    assert Run(Run(START, before), [last]) == Next(Run(START, before), last);
  }

  // ----- The status a send is told is the last one stored -----

  /** The step stores a TX_DONE status: one arrives, and the receive thread is
      not in the middle of another. */
  predicate StoresAt(steps: seq<Step>, j: nat)
    requires j < |steps|
  {
    && steps[j].FrameArrives? && Route(steps[j].frame).TxDone? && Route(steps[j].frame).status.Some?
    && !Run(START, steps[..j]).core.settingEvent
  }

  /** `done` is the last status stored after `cleared` and before `end`. */
  predicate LastStored(steps: seq<Step>, cleared: nat, done: Option<Done>, end: nat)
    requires end <= |steps|
  {
    match done
    case None => forall j :: cleared < j < end ==> !StoresAt(steps, j)
    case Some(d) =>
      cleared < d.at < end && StoresAt(steps, d.at) && forall j :: d.at < j < end ==> !StoresAt(steps, j)
  }

  predicate Recorded(steps: seq<Step>, h: Host) {
    && h.clock == |steps|
    && (ResultOwned(h.core.phase) ==> h.cleared < |steps| && LastStored(steps, h.cleared, h.done, |steps|))
    && (forall i :: 0 <= i < |h.sent| ==>
          h.sent[i].left <= |steps| && LastStored(steps, h.sent[i].cleared, h.sent[i].done, h.sent[i].left))
  }

  lemma StoresAtEarlier(steps: seq<Step>, step: Step, j: nat)
    requires j < |steps|
    ensures StoresAt(steps + [step], j) == StoresAt(steps, j)
  {
    assert (steps + [step])[..j] == steps[..j];
  }

  lemma LastStoredEarlier(steps: seq<Step>, step: Step, cleared: nat, done: Option<Done>, end: nat)
    requires end <= |steps| && LastStored(steps, cleared, done, end)
    ensures LastStored(steps + [step], cleared, done, end)
  {
    hide StoresAt;
    forall j: nat | j < |steps| ensures StoresAt(steps + [step], j) == StoresAt(steps, j) {
      StoresAtEarlier(steps, step, j);
    }
  }

  /** One more step: what is in the middle of the window, and what has left it. */
  lemma StepRecorded(steps: seq<Step>, step: Step)
    requires Recorded(steps, Run(START, steps))
    ensures Recorded(steps + [step], Next(Run(START, steps), step))
  {
    var h := Run(START, steps);
    var h', later := Next(h, step), steps + [step];
    WindowRecorded(steps, step);
    hide LastStored, StoresAt, Next, ResultOwned;
    SentGrows(h, step);
    forall i | 0 <= i < |h'.sent|
      ensures h'.sent[i].left <= |later| && LastStored(later, h'.sent[i].cleared, h'.sent[i].done, h'.sent[i].left)
    {
      var r := h'.sent[i];
      if i < |h.sent| { assert r == h.sent[i]; }
      LastStoredEarlier(steps, step, r.cleared, r.done, r.left);
    }
  }

  /** A step keeps the finished sends and adds at most the current one. */
  lemma SentGrows(h: Host, step: Step)
    ensures var r := Next(h, step);
            && r.clock == h.clock + 1
            && |h.sent| <= |r.sent| <= |h.sent| + 1 && r.sent[..|h.sent|] == h.sent
            && (|r.sent| > |h.sent| ==>
                  var last := r.sent[|h.sent|];
                  && ResultOwned(h.core.phase) && last == Returning(h, step)
                  && last.left == h.clock && last.cleared == h.cleared && last.done == h.done)
  {
    hide Route, ReasonFor;
  }

  lemma WindowRecorded(steps: seq<Step>, step: Step)
    requires Recorded(steps, Run(START, steps))
    ensures var h' := Next(Run(START, steps), step);
            ResultOwned(h'.core.phase) ==>
              h'.cleared < |steps| + 1 && LastStored(steps + [step], h'.cleared, h'.done, |steps| + 1)
  {
    var h := Run(START, steps);
    var h' := Next(h, step);
    LastStep(steps, step);
    hide StoresAt, Stored, LastStored, Next, Run, ResultOwned;
    if ResultOwned(h'.core.phase) {
      if ResultOwned(h.core.phase) {
        OneMore(h, step);
        OneLonger(steps, step, h.cleared, h.done, h'.done);
      } else {
        Opens(h, step);
        EmptyWindow(steps + [step], |steps|);
      }
    }
  }

  lemma LastStep(steps: seq<Step>, step: Step)
    ensures StoresAt(steps + [step], |steps|) == Stored(Run(START, steps), step)
  {
    assert (steps + [step])[..|steps|] == steps;
  }

  lemma EmptyWindow(steps: seq<Step>, at: nat)
    requires at < |steps|
    ensures LastStored(steps, at, None, at + 1)
  {}

  lemma OneLonger(steps: seq<Step>, step: Step, cleared: nat, done: Option<Done>, done': Option<Done>)
    requires cleared < |steps| && LastStored(steps, cleared, done, |steps|)
    requires if StoresAt(steps + [step], |steps|) then done'.Some? && done'.value.at == |steps| else done' == done
    ensures LastStored(steps + [step], cleared, done', |steps| + 1)
  {
    LastStoredEarlier(steps, step, cleared, done, |steps|);
    hide StoresAt;
  }

  /** The window opens with the result cleared. */
  lemma Opens(h: Host, step: Step)
    requires !ResultOwned(h.core.phase) && ResultOwned(Next(h, step).core.phase)
    ensures Next(h, step).cleared == h.clock && Next(h, step).done == None
  {
    hide OnMove, OnFrame;
    if step.FrameArrives? { FrameEffect(h, Route(step.frame)); } else { MoveEffect(h, step); }
  }

  predicate Stored(h: Host, step: Step) {
    step.FrameArrives? && Route(step.frame).TxDone? && Route(step.frame).status.Some? && !h.core.settingEvent
  }

  lemma OneMore(h: Host, step: Step)
    requires ResultOwned(h.core.phase) && ResultOwned(Next(h, step).core.phase)
    ensures var r := Next(h, step);
            r.cleared == h.cleared &&
            if Stored(h, step) then r.done.Some? && r.done.value.at == h.clock else r.done == h.done
  {
    hide Route;
  }

  lemma {:induction false} AllRecorded(steps: seq<Step>)
    ensures Recorded(steps, Run(START, steps))
    decreases |steps|
  {
    if steps != [] {
      var before, last := steps[..|steps| - 1], steps[|steps| - 1];
      assert steps == before + [last];
      AllRecorded(before);
      RunSnoc(before, last);
      hide Recorded, Next;
      StepRecorded(before, last);
    }
  }

  // ----- Which step wrote which frame -----

  /** The step writes the frame with that number. */
  predicate WritesAt(steps: seq<Step>, j: nat, ticket: nat)
    requires j < |steps|
  {
    steps[j] == WriteFrame(ticket, true) && ticket in Run(START, steps[..j]).core.tx.held
  }

  /** A number is in one place only: queued, taken out, or written. */
  predicate TicketsOk(tx: Buffer, wrote: map<nat, nat>) {
    && (forall i :: 0 <= i < |tx.frames| ==> tx.frames[i] < tx.next && tx.frames[i] !in tx.held
                                             && tx.frames[i] !in wrote)
    && (forall i, j :: 0 <= i < j < |tx.frames| ==> tx.frames[i] != tx.frames[j])
    && (forall t :: t in tx.held ==> t < tx.next && t !in wrote)
    && (forall t :: t in wrote ==> t < tx.next)
  }

  /** The current send's frame is written, if at all, after it was queued. */
  predicate OwnOk(h: Host) {
    h.own.Some? ==>
      && h.own.value.ticket < h.core.tx.next && h.own.value.at < h.clock
      && (h.own.value.ticket in h.wrote ==> h.own.value.at < h.wrote[h.own.value.ticket])
  }

  ghost predicate LogOk(steps: seq<Step>, wrote: map<nat, nat>) {
    && (forall t :: t in wrote ==> wrote[t] < |steps| && WritesAt(steps, wrote[t], t))
    && (forall j, t :: 0 <= j < |steps| && WritesAt(steps, j, t) ==> t in wrote && wrote[t] == j)
  }

  /** The record of a finished send is right about its own frame. */
  predicate SentWritten(steps: seq<Step>, r: Sent) {
    r.left <= |steps| &&
    if r.own.None? then r.written.None?
    else if r.written.None? then forall j :: 0 <= j < r.left ==> !WritesAt(steps, j, r.own.value.ticket)
    else r.own.value.at < r.written.value < r.left && WritesAt(steps, r.written.value, r.own.value.ticket)
  }

  ghost predicate WritesRecorded(steps: seq<Step>, h: Host) {
    && h.clock == |steps| && TicketsOk(h.core.tx, h.wrote) && OwnOk(h) && LogOk(steps, h.wrote)
    && forall i :: 0 <= i < |h.sent| ==> SentWritten(steps, h.sent[i])
  }

  lemma WritesAtEarlier(steps: seq<Step>, step: Step, j: nat, t: nat)
    requires j < |steps|
    ensures WritesAt(steps + [step], j, t) == WritesAt(steps, j, t)
  {
    assert (steps + [step])[..j] == steps[..j];
  }

  lemma LastWrite(steps: seq<Step>, step: Step, t: nat)
    ensures WritesAt(steps + [step], |steps|, t) <==> Writes(Run(START, steps).core, step) && step.ticket == t
  {
    assert (steps + [step])[..|steps|] == steps;
  }

  /** The buffer after a step. */
  function TxAfter(c: Core, step: Step): Buffer {
    if c.phase.Ready? && Accepts(c, step) then c.tx.(frames := c.tx.frames + [c.tx.next], next := c.tx.next + 1)
    else if step.TakeFrame? && c.tx.frames != [] then
      c.tx.(frames := c.tx.frames[1..], held := c.tx.held + {c.tx.frames[0]})
    else if step.WriteFrame? then c.tx.(held := c.tx.held - {step.ticket})
    else c.tx
  }

  lemma CoreBuffer(c: Core, step: Step)
    ensures Surroundings(SenderMoves(c, step), step).tx == TxAfter(c, step)
  {}

  lemma BufferEffect(h: Host, step: Step)
    ensures var r := Next(h, step);
            && r.clock == h.clock + 1 && r.core.tx == TxAfter(h.core, step)
            && r.wrote == (if Writes(h.core, step) then h.wrote[step.ticket := h.clock] else h.wrote)
            && r.own == (if h.core.phase.Idle? && step.Enter? then None
                         else if h.core.phase.Ready? && Accepts(h.core, step) then Some(Own(h.core.tx.next, h.clock))
                         else h.own)
  {
    hide Route, Surroundings, SenderMoves, TxAfter;
    CoreBuffer(h.core, step);
    if step.FrameArrives? {
      hide OnFrame;
      FrameEffect(h, Route(step.frame));
      FrameIsNoBufferStep(h.core, step);
    } else if Leaves(h.core, step) {
      ReturnIsNoBufferStep(h.core, step);
    }
  }

  lemma FrameIsNoBufferStep(c: Core, step: Step)
    requires step.FrameArrives?
    ensures TxAfter(c, step) == c.tx
  {}

  lemma ReturnIsNoBufferStep(c: Core, step: Step)
    requires Leaves(c, step)
    ensures TxAfter(c, step) == c.tx && !Writes(c, step) && !Accepts(c, step) && !step.Enter?
  {}

  lemma StepKeepsTickets(h: Host, step: Step)
    requires TicketsOk(h.core.tx, h.wrote) && OwnOk(h)
    ensures TicketsOk(Next(h, step).core.tx, Next(h, step).wrote) && OwnOk(Next(h, step))
  {
    hide Next;
    BufferEffect(h, step);
  }

  lemma StepKeepsLog(steps: seq<Step>, step: Step)
    requires var h := Run(START, steps); h.clock == |steps| && TicketsOk(h.core.tx, h.wrote) && LogOk(steps, h.wrote)
    ensures LogOk(steps + [step], Next(Run(START, steps), step).wrote)
  {
    var h, later := Run(START, steps), steps + [step];
    var wrote := Next(h, step).wrote;
    BufferEffect(h, step);
    hide WritesAt, Next, Run;
    forall t: nat ensures WritesAt(later, |steps|, t) <==> Writes(h.core, step) && step.ticket == t {
      LastWrite(steps, step, t);
    }
    forall j: nat, t: nat | j < |steps| ensures WritesAt(later, j, t) == WritesAt(steps, j, t) {
      WritesAtEarlier(steps, step, j, t);
    }
  }

  lemma SentWrittenStays(steps: seq<Step>, step: Step, r: Sent)
    requires SentWritten(steps, r)
    ensures SentWritten(steps + [step], r)
  {
    hide WritesAt;
    forall j: nat, t: nat | j < |steps| ensures WritesAt(steps + [step], j, t) == WritesAt(steps, j, t) {
      WritesAtEarlier(steps, step, j, t);
    }
  }

  lemma ReturningWritten(steps: seq<Step>, h: Host, step: Step)
    requires h.clock == |steps| && OwnOk(h) && LogOk(steps, h.wrote) && !h.core.phase.Idle?
    ensures SentWritten(steps, Returning(h, step))
  {
    hide WritesAt;
  }

  lemma StepWritesRecorded(steps: seq<Step>, step: Step)
    requires WritesRecorded(steps, Run(START, steps))
    ensures WritesRecorded(steps + [step], Next(Run(START, steps), step))
  {
    var h, h' := Run(START, steps), Next(Run(START, steps), step);
    StepKeepsTickets(h, step);
    StepKeepsLog(steps, step);
    SentGrows(h, step);
    hide LogOk, TicketsOk, OwnOk, SentWritten, Next, Run, Returning, ResultOwned;
    forall i | 0 <= i < |h'.sent| ensures SentWritten(steps + [step], h'.sent[i]) {
      if i < |h.sent| {
        assert h'.sent[i] == h.sent[i];
      } else {
        ReturningWritten(steps, h, step);
      }
      SentWrittenStays(steps, step, h'.sent[i]);
    }
  }

  lemma {:induction false} AllWritesRecorded(steps: seq<Step>)
    ensures WritesRecorded(steps, Run(START, steps))
    decreases |steps|
  {
    if steps != [] {
      var before, last := steps[..|steps| - 1], steps[|steps| - 1];
      assert steps == before + [last];
      AllWritesRecorded(before);
      RunSnoc(before, last);
      hide WritesRecorded, Next;
      StepWritesRecorded(before, last);
    }
  }

  // ----- When the status is older than the frame -----

  /** The status told is no answer to the send's own frame: that was not written
      by then, or only after the status came. */
  predicate ToldTooEarly(r: Sent) {
    r.done.Some? && (r.written.None? || r.done.value.at < r.written.value)
  }

  /** Over every run: the frame a told send queued was written before it returned
      exactly if its record says so, at that step and after it was queued; and the
      status is older than that write exactly when the frame had not been written
      before the return, or no status was stored between the write and the return. */
  lemma ToldTooEarlyIff(steps: seq<Step>, i: nat)
    requires i < |Run(START, steps).sent|
    requires var r := Run(START, steps).sent[i]; r.Ok() || r.reason == StatusNotOne
    ensures var r := Run(START, steps).sent[i];
            && r.own.Some? && r.cleared < r.own.value.at < r.left < |steps| && steps[r.own.value.at] == Queue(true)
            && (r.written.None? ==> forall j :: 0 <= j < r.left ==> !WritesAt(steps, j, r.own.value.ticket))
            && (r.written.Some? ==> r.own.value.at < r.written.value < r.left
                                    && WritesAt(steps, r.written.value, r.own.value.ticket))
            && (ToldTooEarly(r) <==>
                  r.written.None? || forall j :: r.written.value < j < r.left ==> !StoresAt(steps, j))
  {
    hide Run, WritesAt, StoresAt, LastStored, LogOk, TicketsOk, Genuine;
    RunKeepsInv([], START, steps);
    AllRecorded(steps);
    AllWritesRecorded(steps);
    assert [] + steps == steps;
    var r := Run(START, steps).sent[i];
    assert SentOk(steps, r) && LastStored(steps, r.cleared, r.done, r.left) && SentWritten(steps, r);
    ToldIff(steps, r);
  }

  lemma ToldIff(steps: seq<Step>, r: Sent)
    requires SentOk(steps, r) && LastStored(steps, r.cleared, r.done, r.left) && SentWritten(steps, r)
    requires r.Ok() || r.reason == StatusNotOne
    ensures r.own.Some? && r.done.Some?
    ensures ToldTooEarly(r) <==> r.written.None? || forall j :: r.written.value < j < r.left ==> !StoresAt(steps, j)
  {
    if r.written.Some? {
      assert WritesAt(steps, r.written.value, r.own.value.ticket);
      hide LastStored, StoresAt;
      OlderIff(steps, r.cleared, r.done.value, r.written.value, r.left);
    }
  }

  lemma OlderIff(steps: seq<Step>, cleared: nat, d: Done, w: nat, end: nat)
    requires cleared < w < end <= |steps| && steps[w].WriteFrame? && LastStored(steps, cleared, Some(d), end)
    ensures d.at < w <==> forall j :: w < j < end ==> !StoresAt(steps, j)
  {
    assert !StoresAt(steps, w);
    hide StoresAt;
  }

  // ----- Runs in which it is -----

  const DONE: seq<byte> := [0x06, 0xF8, 0x01]

  lemma Two(h: Host, a: Step, b: Step)
    ensures Run(h, [a, b]) == Next(Next(h, a), b)
  {
    hide Next;
    assert [a, b][1..] == [b] && [b][1..] == [];
    assert Run(Next(h, a), [b]) == Next(Next(h, a), b);
  }

  lemma Three(h: Host, a: Step, b: Step, c: Step)
    ensures Run(h, [a, b, c]) == Next(Next(Next(h, a), b), c)
  {
    hide Next;
    assert [a, b, c][1..] == [b, c];
    Two(Next(h, a), b, c);
  }

  /** A sender enters and clears. */
  lemma Entering(h: Host, sender: nat)
    requires h.core.phase.Idle?
    ensures Run(h, [Enter(sender), ClearEvent, ClearResult]) ==
            h.(core := h.core.(phase := ResultCleared(sender), event := false, result := None), clock := h.clock + 3,
               entered := h.clock, cleared := h.clock + 2, own := None, done := None)
  {
    hide Run, Route;
    Three(h, Enter(sender), ClearEvent, ClearResult);
    var a := h.(core := h.core.(phase := Entered(sender)), clock := h.clock + 1, entered := h.clock, own := None);
    assert Next(h, Enter(sender)) == a;
    var b := a.(core := a.core.(phase := EventCleared(sender), event := false), clock := h.clock + 2);
    assert Next(a, ClearEvent) == b;
  }

  /** It queues its frame. */
  lemma Queueing(h: Host)
    requires h.core.phase.ResultCleared? && |h.core.tx.frames| < TX_BUFFER_SIZE
    ensures var tx := h.core.tx;
            Run(h, [ClearBusy, Queue(true)]) ==
            h.(core := h.core.(phase := Polling(h.core.phase.sender),
                               tx := tx.(frames := tx.frames + [tx.next], next := tx.next + 1)),
               busySeen := false, clock := h.clock + 2, own := Some(Own(tx.next, h.clock + 1)))
  {
    hide Run, Route;
    Two(h, ClearBusy, Queue(true));
    var a := h.(core := h.core.(phase := Ready(h.core.phase.sender)), busySeen := false, clock := h.clock + 1);
    assert Next(h, ClearBusy) == a;
  }

  /** A TX_DONE comes in. */
  lemma DoneArrives(h: Host)
    requires !h.core.settingEvent && (h.core.phase.ResultCleared? || h.core.phase.Polling?)
    ensures Run(h, [FrameArrives(DONE), SetEvent]) ==
            h.(core := h.core.(event := true, result := Some(true)), clock := h.clock + 2,
               done := Some(Done(h.clock, 0x01)))
  {
    assert Route(DONE) == TxDone(Some(0x01));
    hide Run, Route;
    Two(h, FrameArrives(DONE), SetEvent);
    var a := h.(core := h.core.(settingEvent := true, result := Some(true)), clock := h.clock + 1,
                done := Some(Done(h.clock, 0x01)));
    assert Next(h, FrameArrives(DONE)) == a;
  }

  /** The sender sees it. */
  lemma Resolving(h: Host)
    requires h.core.phase.Polling? && h.core.event && h.core.result == Some(true)
    ensures var woken := h.(core := h.core.(phase := Woken(h.core.phase.sender)), clock := h.clock + 1);
            Run(h, [PollEvent, Resolve]).sent == h.sent + [Returning(woken, Resolve)]
  {
    hide Run, Route, Returning;
    Two(h, PollEvent, Resolve);
    var a := h.(core := h.core.(phase := Woken(h.core.phase.sender)), clock := h.clock + 1);
    assert Next(h, PollEvent) == a;
    assert Next(a, Resolve) == OnReturn(a, Resolve).(clock := a.clock + 1);
  }

  /** A TX_DONE that comes even before the frame is queued confirms it. */
  lemma ConfirmedBeforeWritten(sender: nat)
    ensures var steps := [Enter(sender), ClearEvent, ClearResult] + [FrameArrives(DONE), SetEvent]
                         + [ClearBusy, Queue(true)] + [PollEvent, Resolve];
            Run(START, steps).sent == [Sent(sender, Confirmed, 0, 2, Some(Own(0, 6)), None, Some(Done(3, 0x01)), 8)]
  {
    hide Run;
    var a, b, c := [Enter(sender), ClearEvent, ClearResult], [FrameArrives(DONE), SetEvent], [ClearBusy, Queue(true)];
    RunAppend(START, a + b + c, [PollEvent, Resolve]);
    RunAppend(START, a + b, c);
    RunAppend(START, a, b);
    Entering(START, sender);
    DoneArrives(Run(START, a));
    Queueing(Run(START, a + b));
    Resolving(Run(START, a + b + c));
  }

  /** So does one that comes while the frame is still in the buffer. */
  lemma ConfirmedWhileBuffered(sender: nat)
    ensures var steps := [Enter(sender), ClearEvent, ClearResult] + [ClearBusy, Queue(true)]
                         + [FrameArrives(DONE), SetEvent] + [PollEvent, Resolve];
            Run(START, steps).sent == [Sent(sender, Confirmed, 0, 2, Some(Own(0, 4)), None, Some(Done(5, 0x01)), 8)]
  {
    hide Run;
    var a, b, c := [Enter(sender), ClearEvent, ClearResult], [ClearBusy, Queue(true)], [FrameArrives(DONE), SetEvent];
    RunAppend(START, a + b + c, [PollEvent, Resolve]);
    RunAppend(START, a + b, c);
    RunAppend(START, a, b);
    Entering(START, sender);
    Queueing(Run(START, a));
    DoneArrives(Run(START, a + b));
    Resolving(Run(START, a + b + c));
  }

  /** The sender gives up; its frame stays where it is. */
  lemma GivingUp(h: Host)
    requires h.core.phase.Polling? && !h.core.down && !h.busySeen
    ensures var late := h.(core := h.core.(phase := Unconfirmed(h.core.phase.sender)), clock := h.clock + 2);
            Run(h, [TimeOut, CheckShutdown, Report]) ==
            h.(core := h.core.(phase := Idle), clock := h.clock + 3, sent := h.sent + [Returning(late, Report)])
  {
    hide Run, Route, Returning;
    Three(h, TimeOut, CheckShutdown, Report);
    var a := h.(core := h.core.(phase := LoopLeft(h.core.phase.sender)), clock := h.clock + 1);
    assert Next(h, TimeOut) == a;
    var b := a.(core := a.core.(phase := Unconfirmed(h.core.phase.sender)), clock := h.clock + 2);
    assert Next(a, CheckShutdown) == b;
  }

  /** A worker writes the frame at the head of the buffer. */
  lemma WritingHead(h: Host, ticket: nat, rest: seq<nat>)
    requires h.core.phase.Polling? && h.core.tx.frames == [ticket] + rest && h.core.tx.held == {}
    ensures Run(h, [TakeFrame, WriteFrame(ticket, true)]) ==
            h.(core := h.core.(tx := h.core.tx.(frames := rest)), clock := h.clock + 2,
               wrote := h.wrote[ticket := h.clock + 1])
  {
    hide Run, Route;
    Two(h, TakeFrame, WriteFrame(ticket, true));
    var a := h.(core := h.core.(tx := h.core.tx.(frames := rest, held := {ticket})), clock := h.clock + 1);
    assert h.core.tx.frames[1..] == rest && {} + {ticket} == {ticket} && {ticket} - {ticket} == {};
    assert Next(h, TakeFrame) == a;
  }

  function FirstSend(sender: nat): seq<Step> {
    [Enter(sender), ClearEvent, ClearResult] + [ClearBusy, Queue(true)] + [TimeOut, CheckShutdown, Report]
  }

  lemma FirstSendTimesOut(sender: nat)
    ensures Run(START, FirstSend(sender)) ==
            START.(core := START.core.(tx := Buffer([0], {}, 1)), clock := 8, cleared := 2, own := Some(Own(0, 4)),
                   sent := [Sent(sender, NoDone, 0, 2, Some(Own(0, 4)), None, None, 7)])
  {
    hide Run;
    var a, b := [Enter(sender), ClearEvent, ClearResult], [ClearBusy, Queue(true)];
    RunAppend(START, a + b, [TimeOut, CheckShutdown, Report]);
    RunAppend(START, a, b);
    Entering(START, sender);
    Queueing(Run(START, a));
    GivingUp(Run(START, a + b));
    assert [] + [0] == [0];
  }

  /** Nothing empties the buffer: the frame of a send that gave up is written in
      the window of the next, whose own frame is still buffered, and its TX_DONE
      confirms that one. */
  lemma LeftoverFrameConfirms(first: nat, second: nat)
    ensures var steps := FirstSend(first) + [Enter(second), ClearEvent, ClearResult] + [ClearBusy, Queue(true)]
                         + [TakeFrame, WriteFrame(0, true)] + [FrameArrives(DONE), SetEvent] + [PollEvent, Resolve];
            Run(START, steps).sent ==
            [Sent(first, NoDone, 0, 2, Some(Own(0, 4)), None, None, 7),
             Sent(second, Confirmed, 8, 10, Some(Own(1, 12)), None, Some(Done(15, 0x01)), 18)]
  {
    hide Run, FirstSend;
    var a, b, c := FirstSend(first), [Enter(second), ClearEvent, ClearResult], [ClearBusy, Queue(true)];
    var d, e := [TakeFrame, WriteFrame(0, true)], [FrameArrives(DONE), SetEvent];
    RunAppend(START, a + b + c + d + e, [PollEvent, Resolve]);
    RunAppend(START, a + b + c + d, e);
    RunAppend(START, a + b + c, d);
    RunAppend(START, a + b, c);
    RunAppend(START, a, b);
    FirstSendTimesOut(first);
    Entering(Run(START, a), second);
    Queueing(Run(START, a + b));
    assert [0] + [1] == [0, 1];
    WritingHead(Run(START, a + b + c), 0, [1]);
    DoneArrives(Run(START, a + b + c + d));
    Resolving(Run(START, a + b + c + d + e));
  }

  // ----- TX_BUSY decides nothing -----

  predicate IsBusy(step: Step) {
    step.FrameArrives? && Route(step.frame) == TxBusy
  }

  function WithoutBusy(steps: seq<Step>): seq<Step> {
    if steps == [] then []
    else (if IsBusy(steps[0]) then [] else [steps[0]]) + WithoutBusy(steps[1..])
  }

  /** What the callers learn, up to the wording of a timeout. */
  datatype Outcome = Outcome(sender: nat, ok: bool, reason: Reason)

  function OutcomeOf(r: Sent): Outcome {
    Outcome(r.sender, r.Ok(), if r.reason == BusyAndNoDone then NoDone else r.reason)
  }

  function Outcomes(sent: seq<Sent>): seq<Outcome> {
    if sent == [] then [] else Outcomes(sent[..|sent| - 1]) + [OutcomeOf(sent[|sent| - 1])]
  }

  predicate Alike(h: Host, g: Host) {
    h.core == g.core && Outcomes(h.sent) == Outcomes(g.sent)
  }

  lemma OutcomesAppend(sent: seq<Sent>, r: Sent)
    ensures Outcomes(sent + [r]) == Outcomes(sent) + [OutcomeOf(r)]
  {
    assert (sent + [r])[..|sent|] == sent;
  }

  lemma ReturnsAlike(h: Host, g: Host, step: Step)
    requires Alike(h, g) && !h.core.phase.Idle?
    ensures Alike(OnReturn(h, step), OnReturn(g, step))
  {
    hide Outcomes;
    OutcomesAppend(h.sent, Returning(h, step));
    OutcomesAppend(g.sent, Returning(g, step));
  }

  lemma StepKeepsAlike(h: Host, g: Host, step: Step)
    requires Alike(h, g)
    ensures Alike(Next(h, step), Next(g, step))
    ensures IsBusy(step) ==> Alike(Next(h, step), g)
  {
    hide Outcomes, Route, SenderMoves, Surroundings;
    if !step.FrameArrives? && Leaves(h.core, step) { ReturnsAlike(h, g, step); }
  }

  /** Deleting every TX_BUSY frame from a run changes no verdict: the same
      sends return the same answers for the same reasons, except that a
      timeout no longer mentions TX_BUSY. */
  lemma {:induction false} BusyIsTransparent(h: Host, g: Host, steps: seq<Step>)
    requires Alike(h, g)
    ensures Alike(Run(h, steps), Run(g, WithoutBusy(steps)))
    decreases |steps|
  {
    hide Outcomes;
    if steps != [] {
      if IsBusy(steps[0]) {
        assert WithoutBusy(steps) == WithoutBusy(steps[1..]);
        StepKeepsAlike(h, g, steps[0]);
        BusyIsTransparent(Next(h, steps[0]), g, steps[1..]);
      } else {
        var kept := WithoutBusy(steps);
        assert kept[0] == steps[0] && kept[1..] == WithoutBusy(steps[1..]);
        StepKeepsAlike(h, g, steps[0]);
        BusyIsTransparent(Next(h, steps[0]), Next(g, steps[0]), steps[1..]);
      }
    }
  }
}
