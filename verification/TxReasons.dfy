/** Why a DATA send returned: every reason was true when it was given, and every
    event that ends a send ends it with its own reason. */
module TxReasons {
  import opened Bytes
  import opened ModemFrames
  import opened Options
  import opened TxVerdict

  /** What a reason claims of the host, and of the step that returns with it. */
  predicate Claims(h: Host, step: Step, reason: Reason) {
    match reason
    case NotQueued => h.core.phase.Ready? && step.Queue? && (!step.ok || |h.core.tx.frames| >= 1024)
    case Confirmed => h.core.phase.Woken? && h.core.result == Some(true)
    case StatusNotOne => h.core.phase.Woken? && h.core.result == Some(false)
    case Aborted => h.core.phase.Woken? && h.core.result == None
    case LinkLost => h.core.phase.Polling? && step.SeeLinkLost? && (h.core.degraded || h.core.stopped)
    case ShuttingDown => h.core.phase.LoopLeft? && h.core.down
    case BusyAndNoDone => h.core.phase.Unconfirmed? && h.busySeen
    case NoDone => h.core.phase.Unconfirmed? && !h.busySeen
  }

  /** The send returned at its step, for a reason that held there. */
  predicate Truthful(steps: seq<Step>, r: Sent) {
    && r.left < |steps|
    && var h := Run(START, steps[..r.left]);
       !h.core.phase.Idle? && h.core.phase.sender == r.sender && h.cleared == r.cleared
       && Claims(h, steps[r.left], r.reason)
  }

  lemma ReturnClaims(h: Host, step: Step)
    requires !step.FrameArrives? && Leaves(h.core, step)
    ensures Claims(h, step, Returning(h, step).reason)
  {}

  lemma TruthStays(steps: seq<Step>, step: Step, r: Sent)
    requires Truthful(steps, r)
    ensures Truthful(steps + [step], r)
  {
    assert (steps + [step])[..r.left] == steps[..r.left];
  }

  lemma NewestReturn(steps: seq<Step>, step: Step)
    requires var h := Run(START, steps); h.clock == |steps| && |Next(h, step).sent| > |h.sent|
    ensures var h := Run(START, steps); Truthful(steps + [step], Next(h, step).sent[|h.sent|])
  {
    var h := Run(START, steps);
    assert (steps + [step])[..|steps|] == steps;
    NewestIsReturning(h, step);
    ReturnClaims(h, step);
    hide Next, Run;
  }

  lemma NewestIsReturning(h: Host, step: Step)
    ensures var r := Next(h, step);
            if !step.FrameArrives? && Leaves(h.core, step) then r.sent == h.sent + [Returning(h, step)]
            else r.sent == h.sent
  {
    hide Route, Returning;
  }

  /** Over every interleaving, the reason of every finished send held at the step
      at which it returned. */
  lemma {:induction false} ReasonsHold(steps: seq<Step>)
    ensures forall i :: 0 <= i < |Run(START, steps).sent| ==> Truthful(steps, Run(START, steps).sent[i])
    decreases |steps|
  {
    if steps != [] {
      var before, last := steps[..|steps| - 1], steps[|steps| - 1];
      assert steps == before + [last];
      ReasonsHold(before);
      RunSnoc(before, last);
      AllRecorded(before);
      var h := Run(START, before);
      NewestIsReturning(h, last);
      forall i | 0 <= i < |Next(h, last).sent| ensures Truthful(steps, Next(h, last).sent[i]) {
        if i < |h.sent| { TruthStays(before, last, h.sent[i]); } else { NewestReturn(before, last); }
      }
    }
  }

  // ----- Every event that ends a send -----

  /** The reason of the send that just returned, if one did. */
  function Told(h: Host, r: Host): Option<Reason> {
    if |r.sent| == |h.sent| + 1 && r.core.phase.Idle? then Some(r.sent[|h.sent|].reason) else None
  }

  /** A sender that is told what the stored result says. */
  function Meaning(result: Option<bool>): Reason {
    if result == Some(true) then Confirmed else if result == Some(false) then StatusNotOne else Aborted
  }

  /** A send is refused exactly when the driver does not take the frame or has
      1024 of them waiting. */
  lemma RefusedIff(h: Host, ok: bool)
    requires h.core.phase.Ready?
    ensures Told(h, Next(h, Queue(ok))) == if !ok || |h.core.tx.frames| >= 1024 then Some(NotQueued) else None
  {}

  /** A polling sender sees a lost link exactly when the link is degraded or the
      driver stopped; whoever sets the event wakes it, and it reads the result
      that is stored by then. */
  lemma PollingSenderIsTold(h: Host)
    requires h.core.phase.Polling?
    ensures Told(h, Next(h, SeeLinkLost)) == if h.core.degraded || h.core.stopped then Some(LinkLost) else None
    ensures Told(h, Next(Next(Next(h, WakeSender), PollEvent), Resolve)) == Some(Meaning(h.core.result))
    ensures !h.core.event ==> Next(h, PollEvent) == h.(clock := h.clock + 1)
  {
    LinkLossIsSeen(h);
    EventIsSet(h);
    hide Next;
    EventIsTold(Next(h, WakeSender));
  }

  lemma LinkLossIsSeen(h: Host)
    requires h.core.phase.Polling?
    ensures Told(h, Next(h, SeeLinkLost)) == if h.core.degraded || h.core.stopped then Some(LinkLost) else None
    ensures !h.core.event ==> Next(h, PollEvent) == h.(clock := h.clock + 1)
  {}

  lemma EventIsSet(h: Host)
    requires h.core.phase.Polling?
    ensures Next(h, WakeSender) == h.(core := h.core.(event := true), clock := h.clock + 1)
  {}

  lemma EventIsTold(h: Host)
    requires h.core.phase.Polling? && h.core.event
    ensures Told(h, Next(Next(h, PollEvent), Resolve)) == Some(Meaning(h.core.result))
  {}

  /** A TX_DONE frame wakes the sender: with the status it carries, or, without
      one, with the result as it was. */
  lemma DoneFrameIsTold(h: Host, frame: seq<byte>)
    requires h.core.phase.Polling? && !h.core.settingEvent && [0x06, 0xF8] <= frame
    ensures var r := Next(Next(Next(Next(h, FrameArrives(frame)), SetEvent), PollEvent), Resolve);
            Told(h, r) == Some(Meaning(if |frame| == 2 then h.core.result else Some(frame[2] == 0x01)))
  {
    hide Next;
    StoredThenSet(h, frame);
    EventIsTold(Next(Next(h, FrameArrives(frame)), SetEvent));
  }

  lemma StoredThenSet(h: Host, frame: seq<byte>)
    requires h.core.phase.Polling? && !h.core.settingEvent && [0x06, 0xF8] <= frame
    ensures var r := Next(Next(h, FrameArrives(frame)), SetEvent);
            && r.core.phase == h.core.phase && r.core.event && r.sent == h.sent
            && r.core.result == if |frame| == 2 then h.core.result else Some(frame[2] == 0x01)
  {
    RouteIff(frame, [], if |frame| == 2 then 0 else frame[2]);
    if |frame| == 2 { assert frame == [0x06, 0xF8]; } else { assert [0x06, 0xF8, frame[2]] <= frame; }
    hide Route;
  }

  /** A sender whose time is up is told of a shutdown if there is one, and else
      that nothing came, or only that the modem was busy. */
  lemma LateSenderIsTold(h: Host)
    requires h.core.phase.Polling?
    ensures var late := Next(Next(h, TimeOut), CheckShutdown);
            if h.core.down then Told(h, late) == Some(ShuttingDown)
            else Told(h, Next(late, Report)) == Some(if h.busySeen then BusyAndNoDone else NoDone)
    ensures Next(h, SeeShutdown).core.phase.LoopLeft? <==> h.core.down
  {
    TimeIsUp(h);
    hide Next;
    LoopLeftIsTold(Next(h, TimeOut));
  }

  lemma TimeIsUp(h: Host)
    requires h.core.phase.Polling?
    ensures Next(h, TimeOut) == h.(core := h.core.(phase := LoopLeft(h.core.phase.sender)), clock := h.clock + 1)
    ensures Next(h, SeeShutdown).core.phase.LoopLeft? <==> h.core.down
  {}

  lemma LoopLeftIsTold(h: Host)
    requires h.core.phase.LoopLeft?
    ensures var late := Next(h, CheckShutdown);
            if h.core.down then Told(h, late) == Some(ShuttingDown)
            else Told(h, Next(late, Report)) == Some(if h.busySeen then BusyAndNoDone else NoDone)
  {}

  // ----- What a timeout mentions -----

  /** The step notes a TX_BUSY: one arrives, and the receive thread is not in the
      middle of a TX_DONE. */
  predicate NotesBusy(steps: seq<Step>, j: nat)
    requires j < |steps|
  {
    steps[j].FrameArrives? && Route(steps[j].frame).TxBusy? && !Run(START, steps[..j]).core.settingEvent
  }

  /** `c` is the first `ClearBusy` after the result was cleared. */
  predicate BusyCleared(steps: seq<Step>, cleared: nat, c: nat) {
    cleared < c < |steps| && steps[c] == ClearBusy && forall j :: cleared < j < c ==> steps[j] != ClearBusy
  }

  predicate BusyKnown(steps: seq<Step>, c: nat, busySeen: bool) {
    busySeen <==> exists j :: c < j < |steps| && NotesBusy(steps, j)
  }

  predicate AfterClearBusy(p: Phase) { p.Ready? || FrameQueued(p) }

  ghost predicate BusyOk(steps: seq<Step>, h: Host) {
    && (h.core.phase.ResultCleared? ==> forall j :: h.cleared < j < |steps| ==> steps[j] != ClearBusy)
    && (AfterClearBusy(h.core.phase) ==>
          exists c :: BusyCleared(steps, h.cleared, c) && BusyKnown(steps, c, h.busySeen))
  }

  lemma NotesEarlier(steps: seq<Step>, step: Step, j: nat)
    requires j < |steps|
    ensures NotesBusy(steps + [step], j) == NotesBusy(steps, j)
  {
    assert (steps + [step])[..j] == steps[..j];
  }

  lemma NotesNow(steps: seq<Step>, step: Step)
    ensures NotesBusy(steps + [step], |steps|) <==>
            step.FrameArrives? && Route(step.frame).TxBusy? && !Run(START, steps).core.settingEvent
  {
    assert (steps + [step])[..|steps|] == steps;
  }

  lemma KnownOneMore(steps: seq<Step>, step: Step, cleared: nat, c: nat, busySeen: bool, busySeen': bool)
    requires BusyCleared(steps, cleared, c) && BusyKnown(steps, c, busySeen)
    requires busySeen' <==> busySeen || NotesBusy(steps + [step], |steps|)
    ensures BusyCleared(steps + [step], cleared, c) && BusyKnown(steps + [step], c, busySeen')
  {
    hide NotesBusy;
    var later := steps + [step];
    forall j: nat | j < |steps| ensures NotesBusy(later, j) == NotesBusy(steps, j) { NotesEarlier(steps, step, j); }
    if j :| c < j < |steps| && NotesBusy(steps, j) { assert NotesBusy(later, j); }
    if j :| c < j < |later| && NotesBusy(later, j) { assert j < |steps| ==> NotesBusy(steps, j); }
  }

  /** What happens to the mark, from one phase to the next. */
  predicate Moves(h: Host, r: Host, step: Step, noted: bool) {
    && (AfterClearBusy(r.core.phase) ==>
          if AfterClearBusy(h.core.phase) then r.cleared == h.cleared && r.busySeen == (h.busySeen || noted)
          else step == ClearBusy && h.core.phase.ResultCleared? && r.cleared == h.cleared && !r.busySeen)
    && (r.core.phase.ResultCleared? ==>
          if h.core.phase.ResultCleared? then r.cleared == h.cleared && step != ClearBusy
          else step == ClearResult && r.cleared == h.clock)
  }

  lemma SurroundingsKeepPhase(c: Core, step: Step)
    ensures Surroundings(c, step).phase == c.phase
  {}

  lemma MoveMoves(h: Host, step: Step)
    ensures Moves(h, OnMove(h, step), step, false)
  {
    SurroundingsKeepPhase(SenderMoves(h.core, step), step);
    hide Surroundings;
  }

  lemma FrameMoves(h: Host, step: Step)
    requires step.FrameArrives?
    ensures var routed := Route(step.frame);
            Moves(h, OnFrame(h, routed), step, routed.TxBusy? && !h.core.settingEvent)
  {
    hide Route;
  }

  lemma BusyEffect(h: Host, step: Step)
    ensures Moves(h, Next(h, step), step,
                  step.FrameArrives? && Route(step.frame).TxBusy? && !h.core.settingEvent)
  {
    hide Route, OnMove, OnFrame, Returning;
    if step.FrameArrives? { FrameMoves(h, step); } else { MoveMoves(h, step); }
  }

  lemma StepKeepsBusy(steps: seq<Step>, step: Step)
    requires BusyOk(steps, Run(START, steps)) && Run(START, steps).clock == |steps|
    requires ResultOwned(Run(START, steps).core.phase) ==> Run(START, steps).cleared < |steps|
    ensures BusyOk(steps + [step], Next(Run(START, steps), step))
  {
    var h, later := Run(START, steps), steps + [step];
    var r := Next(h, step);
    BusyEffect(h, step);
    NotesNow(steps, step);
    hide Next, Route, Run;
    assert forall j :: 0 <= j < |steps| ==> later[j] == steps[j];
    if AfterClearBusy(r.core.phase) {
      if AfterClearBusy(h.core.phase) {
        var c :| BusyCleared(steps, h.cleared, c) && BusyKnown(steps, c, h.busySeen);
        KnownOneMore(steps, step, h.cleared, c, h.busySeen, r.busySeen);
      } else {
        assert BusyCleared(later, h.cleared, |steps|) && BusyKnown(later, |steps|, false);
      }
    }
  }

  lemma {:induction false} BusyIsNoted(steps: seq<Step>)
    ensures BusyOk(steps, Run(START, steps))
    decreases |steps|
  {
    if steps != [] {
      var before, last := steps[..|steps| - 1], steps[|steps| - 1];
      assert steps == before + [last];
      BusyIsNoted(before);
      AllRecorded(before);
      RunSnoc(before, last);
      hide BusyOk, Next;
      StepKeepsBusy(before, last);
    }
  }

  /** Over every interleaving, a send that timed out mentions a busy modem exactly
      when a TX_BUSY frame was noted between its clearing of that mark and its
      return. */
  lemma TimeoutMentionsBusyIff(steps: seq<Step>, i: nat)
    requires i < |Run(START, steps).sent|
    requires Run(START, steps).sent[i].reason in {BusyAndNoDone, NoDone}
    ensures var r := Run(START, steps).sent[i];
            r.left < |steps| &&
            exists c :: BusyCleared(steps[..r.left], r.cleared, c) &&
                        BusyKnown(steps[..r.left], c, r.reason == BusyAndNoDone)
  {
    ReasonsHold(steps);
    var r := Run(START, steps).sent[i];
    assert Truthful(steps, r);
    BusyIsNoted(steps[..r.left]);
    hide Run, BusyCleared, BusyKnown;
  }
}
