/** Single-flight SetHardware commands of the KISS modem host.

    Any number of callers contend for the command lock; the receive thread
    delivers frames at any point.  Every lock-protected region is one step, and
    the theorems range over every sequence of steps. */
module SetHardware {
  import opened Bytes
  import opened ModemFrames
  import opened Options
  import opened Sequences

  const QUEUE_LIMIT: nat := 32

  /** A reply and its arrival number. */
  datatype Tagged = Tagged(id: nat, response: Response)

  /** The reply codes that answer `sub`: `sub | 0x80`, an error, for some
      commands OK, and for one setter the code of its getter. */
  function Acceptable(sub: byte): set<byte> {
    {if sub < 0x80 then sub + 0x80 else sub, RESP_ERROR}
    + (if sub in {0x09, 0x0A, 0x19, 0x18} then {RESP_OK} else {})
    + (if sub == 0x19 then {RESP_SIGNAL_REPORT} else {})
  }

  // ----- The response queue -----

  /** The first queued reply whose code is acceptable. */
  function FirstMatch(queue: seq<Tagged>, acceptable: set<byte>): (k: nat)
    ensures k <= |queue|
    ensures forall i :: 0 <= i < k ==> queue[i].response.sub !in acceptable
    ensures k < |queue| ==> queue[k].response.sub in acceptable
  {
    if queue == [] || queue[0].response.sub in acceptable then 0
    else 1 + FirstMatch(queue[1..], acceptable)
  }

  lemma RotateStart<T>(s: seq<T>, k: nat)
    ensures Without(s[..0], k) == []
  {}

  /** Reading one more element keeps it, unless it is the one taken out. */
  lemma RotateStep<T>(s: seq<T>, j: nat, k: nat)
    requires j < |s|
    ensures Without(s[..j + 1], k) == if j == k then Without(s[..j], k) else Without(s[..j], k) + [s[j]]
  {
    assert s[..j + 1] == s[..j] + [s[j]];
  }

  /** Moving the head to the end, or dropping it. */
  lemma RotateQueue<T>(s: seq<T>, j: nat, kept: seq<T>)
    requires j < |s|
    ensures (s[j..] + kept)[0] == s[j] && (s[j..] + kept)[1..] == s[j + 1..] + kept
    ensures s[j + 1..] + kept + [s[j]] == s[j + 1..] + (kept + [s[j]])
  {}

  lemma RotateEnd<T>(s: seq<T>, k: nat)
    ensures s[..|s|] == s
    ensures k >= |s| ==> Without(s, k) == s
  {}

  /** `deque(maxlen=32).append` */
  function Enqueue(queue: seq<Tagged>, t: Tagged): seq<Tagged> {
    if |queue| >= QUEUE_LIMIT then queue[1..] + [t] else queue + [t]
  }

  /** The state the response lock protects. */
  datatype Mailbox = Mailbox(queue: seq<Tagged>, event: bool, pending: Option<Tagged>,
                             expected: Option<set<byte>>)

  function Delivered(m: Mailbox, t: Tagged): Mailbox {
    if m.expected.Some? && t.response.sub in m.expected.value
    then m.(pending := Some(t), event := true)
    else m.(queue := Enqueue(m.queue, t))
  }

  function Armed(m: Mailbox, acceptable: set<byte>): Mailbox {
    m.(event := false, pending := None, expected := Some(acceptable))
  }

  class ResponseBox {
    var queue: seq<Tagged>
    var event: bool
    var pending: Option<Tagged>
    var expected: Option<set<byte>>

    function State(): Mailbox
      reads this
    {
      Mailbox(queue, event, pending, expected)
    }

    constructor ()
      ensures State() == Mailbox([], false, None, None)
    {
      queue, event, pending, expected := [], false, None, None;
    }

    /** The receive thread hands over a reply. */
    method Deliver(t: Tagged)
      modifies this
      ensures State() == Delivered(old(State()), t)
    {
      if expected.Some? && t.response.sub in expected.value {
        pending := Some(t);
        event := true;
      } else {
        if |queue| >= QUEUE_LIMIT { queue := queue[1..]; }
        queue := queue + [t];
      }
    }

    /** A command looks at the queued replies first, rotating the whole queue
        once; without a match it arms the mailbox. */
    method TakeQueuedOrArm(acceptable: set<byte>) returns (matched: Option<Tagged>)
      modifies this
      ensures var was := old(State());
              var k := FirstMatch(was.queue, acceptable);
              if k < |was.queue| then
                matched == Some(was.queue[k]) && State() == was.(queue := Without(was.queue, k))
              else
                matched == None && State() == Armed(was, acceptable)
    {
      hide FirstMatch, Without, Acceptable;
      matched := None;
      ghost var was := queue;
      ghost var k := FirstMatch(was, acceptable);
      ghost var kept: seq<Tagged> := [];
      RotateStart(was, k);
      for j := 0 to |queue|
        invariant |was| >= j && queue == was[j..] + kept
        invariant event == old(event) && pending == old(pending) && expected == old(expected)
        invariant matched == if j > k then Some(was[k]) else None
        invariant kept == Without(was[..j], k)
      {
        RotateStep(was, j, k);
        RotateQueue(was, j, kept);
        var head := queue[0];
        queue := queue[1..];
        if matched == None && head.response.sub in acceptable {
          matched := Some(head);
        } else {
          queue := queue + [head];
          kept := kept + [head];
        }
      }
      RotateEnd(was, k);
      if matched == None {
        event := false;
        pending := None;
        expected := Some(acceptable);
      }
    }

    /** The `finally` block of a command. */
    method Disarm()
      modifies this
      ensures State() == old(State()).(expected := None)
    {
      expected := None;
    }
  }

  // ----- The step system -----

  /** Where the holder of the command lock stands. */
  datatype Phase =
    | Free
    | Locked(caller: nat, sub: byte)
    | Unwritten(caller: nat, sub: byte)
    | Waiting(caller: nat, sub: byte)
    | Woken(caller: nat, sub: byte)
    | Leaving(caller: nat, sub: byte, result: Option<Tagged>)

  /** `since` is the number of replies that had arrived when the command took
      the lock. */
  datatype Return = Return(caller: nat, sub: byte, since: nat, result: Option<Tagged>)

  datatype Host = Host(phase: Phase, since: nat, box: Mailbox, arrivals: seq<Response>, returned: seq<Return>)

  datatype Step =
    | Acquire(caller: nat, sub: byte)
    | Scan
    | Write(ok: bool)
    | Wake
    | GiveUp
    | ReadPending
    | Leave
    | FrameArrives(frame: seq<byte>)
    | Shutdown

  const START := Host(Free, 0, Mailbox([], false, None, None), [], [])

  /** One step; a step that is not enabled leaves the host alone. */
  function Next(h: Host, step: Step): Host {
    match step
    case Acquire(caller, sub) =>
      if h.phase.Free? then h.(phase := Phase.Locked(caller, sub), since := |h.arrivals|) else h
    case Scan =>
      if h.phase.Locked? then ScanStep(h, h.phase.caller, h.phase.sub) else h
    case Write(ok) =>
      if !h.phase.Unwritten? then h
      else if ok then h.(phase := Phase.Waiting(h.phase.caller, h.phase.sub))
      else h.(phase := Phase.Leaving(h.phase.caller, h.phase.sub, None))
    case Wake =>
      if h.phase.Waiting? && h.box.event then h.(phase := Phase.Woken(h.phase.caller, h.phase.sub)) else h
    case GiveUp =>
      if h.phase.Waiting? then h.(phase := Phase.Leaving(h.phase.caller, h.phase.sub, None)) else h
    case ReadPending =>
      if h.phase.Woken? then h.(phase := Phase.Leaving(h.phase.caller, h.phase.sub, h.box.pending)) else h
    case Leave =>
      if h.phase.Leaving? then
        h.(phase := Free, box := h.box.(expected := None),
           returned := h.returned + [Return(h.phase.caller, h.phase.sub, h.since, h.phase.result)])
      else h
    case FrameArrives(frame) =>
      match Route(frame) {
        case Reply(r) =>
          h.(box := Delivered(h.box, Tagged(|h.arrivals|, r)), arrivals := h.arrivals + [r])
        case _ => h
      }
    case Shutdown => h.(box := h.box.(event := true))
  }

  function ScanStep(h: Host, caller: nat, sub: byte): Host {
    var k := FirstMatch(h.box.queue, Acceptable(sub));
    if k < |h.box.queue| then
      h.(phase := Free, box := h.box.(queue := Without(h.box.queue, k)),
         returned := h.returned + [Return(caller, sub, h.since, Some(h.box.queue[k]))])
    else
      h.(phase := Phase.Unwritten(caller, sub), box := Armed(h.box, Acceptable(sub)))
  }

  function Run(h: Host, steps: seq<Step>): Host
    decreases |steps|
  {
    if steps == [] then h else Run(Next(h, steps[0]), steps[1..])
  }

  // ----- What every reachable state satisfies -----

  /** The reply is one that really arrived. */
  predicate Genuine(arrivals: seq<Response>, t: Tagged) {
    t.id < |arrivals| && arrivals[t.id] == t.response
  }

  /** No returned command was answered with this reply. */
  predicate Unused(returned: seq<Return>, id: nat) {
    forall i :: 0 <= i < |returned| ==> returned[i].result.None? || returned[i].result.value.id != id
  }

  predicate Queued(queue: seq<Tagged>, id: nat) {
    exists i :: 0 <= i < |queue| && queue[i].id == id
  }

  predicate QueueOk(queue: seq<Tagged>, arrivals: seq<Response>, returned: seq<Return>) {
    && |queue| <= 32
    && (forall i :: 0 <= i < |queue| ==> Genuine(arrivals, queue[i]) && Unused(returned, queue[i].id))
    && (forall i, j :: 0 <= i < j < |queue| ==> queue[i].id < queue[j].id)
  }

  /** A reply on its way to the lock holder: genuine, newer than the command,
      acceptable, spare. */
  predicate Answer(h: Host, sub: byte, t: Tagged) {
    && Genuine(h.arrivals, t) && h.since <= t.id
    && t.response.sub in Acceptable(sub)
    && Unused(h.returned, t.id)
    && !Queued(h.box.queue, t.id)
  }

  predicate PhaseOk(h: Host) {
    match h.phase
    case Free => h.box.expected == None
    case Locked(_, _) => h.box.expected == None
    case Unwritten(_, sub) =>
      h.box.expected == Some(Acceptable(sub)) && (h.box.pending.Some? ==> Answer(h, sub, h.box.pending.value))
    case Waiting(_, sub) =>
      h.box.expected == Some(Acceptable(sub)) && (h.box.pending.Some? ==> Answer(h, sub, h.box.pending.value))
    case Woken(_, sub) =>
      h.box.expected == Some(Acceptable(sub)) && (h.box.pending.Some? ==> Answer(h, sub, h.box.pending.value))
    case Leaving(_, sub, result) =>
      h.box.expected == Some(Acceptable(sub)) && (result.Some? ==> Answer(h, sub, result.value))
  }

  /** A finished command was answered acceptably, by a solicited reply that
      arrived, and by no reply that answered another command. */
  predicate ReturnOk(arrivals: seq<Response>, r: Return) {
    r.result.Some? ==>
      && Genuine(arrivals, r.result.value)
      && r.result.value.response.sub in Acceptable(r.sub)
      && Solicited(r.result.value.response)
  }

  predicate NoReuse(returned: seq<Return>) {
    forall i, j :: 0 <= i < j < |returned| && returned[i].result.Some? && returned[j].result.Some? ==>
      returned[i].result.value.id != returned[j].result.value.id
  }

  ghost predicate Inv(h: Host) {
    && (forall r <- h.arrivals :: Solicited(r))
    && QueueOk(h.box.queue, h.arrivals, h.returned)
    && h.since <= |h.arrivals| && PhaseOk(h)
    && (forall i :: 0 <= i < |h.returned| ==> ReturnOk(h.arrivals, h.returned[i]))
    && NoReuse(h.returned)
  }

  lemma RemovalKeepsQueue(queue: seq<Tagged>, k: nat, arrivals: seq<Response>, returned: seq<Return>, r: Return)
    requires QueueOk(queue, arrivals, returned) && k < |queue| && r.result == Some(queue[k])
    ensures QueueOk(Without(queue, k), arrivals, returned + [r])
  {
    var q := Without(queue, k);
    forall i | 0 <= i < |q| ensures Genuine(arrivals, q[i]) && Unused(returned + [r], q[i].id) {
      var o := if i < k then i else i + 1;
      assert q[i] == queue[o] && queue[o].id != queue[k].id;
      assert Unused(returned, queue[o].id);
    }
  }

  lemma EnqueueKeepsQueue(queue: seq<Tagged>, t: Tagged, arrivals: seq<Response>, returned: seq<Return>)
    requires QueueOk(queue, arrivals, returned) && t == Tagged(|arrivals|, t.response)
    requires forall i :: 0 <= i < |returned| ==> ReturnOk(arrivals, returned[i])
    ensures QueueOk(Enqueue(queue, t), arrivals + [t.response], returned)
  {
    var q := Enqueue(queue, t);
    var shift := if |queue| >= QUEUE_LIMIT then 1 else 0;
    FreshIsUnused(arrivals, returned);
    forall i | 0 <= i < |q| ensures Genuine(arrivals + [t.response], q[i]) && Unused(returned, q[i].id) {
      if i < |q| - 1 { assert q[i] == queue[i + shift]; }
    }
    forall i, j | 0 <= i < j < |q| ensures q[i].id < q[j].id {
      assert q[i] == queue[i + shift];
      if j < |q| - 1 { assert q[j] == queue[j + shift]; }
    }
  }

  lemma FreshIsUnused(arrivals: seq<Response>, returned: seq<Return>)
    requires forall i :: 0 <= i < |returned| ==> ReturnOk(arrivals, returned[i])
    ensures Unused(returned, |arrivals|)
  {}

  lemma ReturnKeepsNoReuse(returned: seq<Return>, r: Return)
    requires NoReuse(returned) && (r.result.Some? ==> Unused(returned, r.result.value.id))
    ensures NoReuse(returned + [r])
  {}

  lemma ScanKeepsInv(h: Host)
    requires Inv(h) && h.phase.Locked?
    ensures Inv(Next(h, Scan))
  {
    var acc := Acceptable(h.phase.sub);
    var k := FirstMatch(h.box.queue, acc);
    if k < |h.box.queue| {
      var t := h.box.queue[k];
      var r := Return(h.phase.caller, h.phase.sub, h.since, Some(t));
      RemovalKeepsQueue(h.box.queue, k, h.arrivals, h.returned, r);
      assert Genuine(h.arrivals, t) && Unused(h.returned, t.id);
      assert h.arrivals[t.id] in h.arrivals;
      ReturnKeepsNoReuse(h.returned, r);
    }
  }

  lemma LeaveKeepsInv(h: Host)
    requires Inv(h) && h.phase.Leaving?
    ensures Inv(Next(h, Leave))
  {
    var r := Return(h.phase.caller, h.phase.sub, h.since, h.phase.result);
    var q := h.box.queue;
    ReturnKeepsNoReuse(h.returned, r);
    if r.result.Some? { assert h.arrivals[r.result.value.id] in h.arrivals; }
    forall i | 0 <= i < |q| ensures Unused(h.returned + [r], q[i].id) {
      assert Unused(h.returned, q[i].id);
    }
  }

  lemma ArrivalKeepsInv(h: Host, r: Response)
    requires Inv(h) && Solicited(r)
    ensures Inv(h.(box := Delivered(h.box, Tagged(|h.arrivals|, r)), arrivals := h.arrivals + [r]))
  {
    var t := Tagged(|h.arrivals|, r);
    var h' := h.(box := Delivered(h.box, t), arrivals := h.arrivals + [r]);
    EnqueueKeepsQueue(h.box.queue, t, h.arrivals, h.returned);
    FreshIsUnused(h.arrivals, h.returned);
    assert !Queued(h.box.queue, t.id);
    assert QueueOk(h.box.queue, h'.arrivals, h.returned);
    if h.box.queue != h'.box.queue { StillSpare(h, h', t); }
  }

  /** Queueing a fresh reply does not claim an older one. */
  lemma StillSpare(h: Host, h': Host, t: Tagged)
    requires h'.box.queue == Enqueue(h.box.queue, t) && t.id == |h.arrivals|
    ensures forall id: nat :: id < |h.arrivals| && !Queued(h.box.queue, id) ==> !Queued(h'.box.queue, id)
  {
    var q := h'.box.queue;
    forall id: nat | id < |h.arrivals| && Queued(q, id) ensures Queued(h.box.queue, id) {
      var i :| 0 <= i < |q| && q[i].id == id;
      var o := if |h.box.queue| >= QUEUE_LIMIT then i + 1 else i;
      assert q[i] == h.box.queue[o];
    }
  }

  lemma StepKeepsInv(h: Host, step: Step)
    requires Inv(h)
    ensures Inv(Next(h, step))
  {
    match step
    case Scan => if h.phase.Locked? { ScanKeepsInv(h); }
    case Leave => if h.phase.Leaving? { LeaveKeepsInv(h); }
    case FrameArrives(frame) => if Route(frame).Reply? { ArrivalKeepsInv(h, Route(frame).response); }
    case _ =>
  }

  /** Over every interleaving: each returned reply arrived, was acceptable to
      its own command, was no TX_DONE, RX_META or TX_BUSY, and answered that
      command only; and the queue keeps arrival order within its limit. */
  lemma {:induction false} SingleFlight(h: Host, steps: seq<Step>)
    requires Inv(h)
    ensures Inv(Run(h, steps))
    decreases |steps|
  {
    if steps != [] {
      StepKeepsInv(h, steps[0]);
      SingleFlight(Next(h, steps[0]), steps[1..]);
    }
  }

  lemma SingleFlightFromStart(steps: seq<Step>)
    ensures Inv(START)
    ensures var h := Run(START, steps);
            && NoReuse(h.returned)
            && QueueOk(h.box.queue, h.arrivals, h.returned)
            && forall i :: 0 <= i < |h.returned| ==> ReturnOk(h.arrivals, h.returned[i])
  {
    SingleFlight(START, steps);
  }

  // ----- Which replies answer which command -----

  /** The reply code is the command's own with the top bit set, or an error;
      0x09, 0x0A, 0x18 and 0x19 are also answered by OK, and 0x19 by 0x9A. */
  predicate Matches(sub: byte, code: byte) {
    || (code >= 0x80 && code % 0x80 == sub % 0x80)
    || code == 0xF1
    || (code == 0xF0 && (sub == 0x09 || sub == 0x0A || sub == 0x18 || sub == 0x19))
    || (code == 0x9A && sub == 0x19)
  }

  lemma AcceptableIff(sub: byte, code: byte)
    ensures code in Acceptable(sub) <==> Matches(sub, code)
  {}

  /** Everything the receive thread does not keep for itself. */
  predicate ForCommands(code: byte, payload: seq<byte>) {
    code != 0xF8 && code != 0xF9 && !(code == 0xF1 && payload != [] && payload[0] == 0x07)
  }

  /** In every reachable state a waiting command returns the next matching reply,
      and a reply that does not match goes to the queue, of which the newest 32
      are kept, and leaves the command waiting. */
  lemma MatchingReplyReturns(h: Host, code: byte, payload: seq<byte>)
    requires Inv(h) && h.phase.Waiting? && ForCommands(code, payload)
    ensures var t := Tagged(|h.arrivals|, Response(code, payload));
            var d := Next(h, FrameArrives([0x06, code] + payload));
            if Matches(h.phase.sub, code) then
              var r := Next(Next(Next(d, Wake), ReadPending), Leave);
              && r.phase.Free?
              && r.returned == h.returned + [Return(h.phase.caller, h.phase.sub, h.since, Some(t))]
            else
              && d.phase == h.phase && d.box.pending == h.box.pending && d.box.event == h.box.event
              && |d.box.queue| <= 32 && d.box.queue != []
              && d.box.queue == (h.box.queue + [t])[|h.box.queue| + 1 - |d.box.queue|..]
              && (|h.box.queue| < 32 ==> |d.box.queue| == |h.box.queue| + 1)
              && (|h.box.queue| == 32 ==> |d.box.queue| == 32)
  {
    RouteIff([0x06, code] + payload, payload, code);
    AcceptableIff(h.phase.sub, code);
    hide Route, Acceptable;
  }

  // ----- How a command ends -----

  /** A command is woken by a reply that waits for it, and finds it there. */
  predicate Prompt(h: Host) {
    match h.phase
    case Unwritten(_, _) => h.box.event == h.box.pending.Some?
    case Waiting(_, _) => h.box.event == h.box.pending.Some?
    case Woken(_, _) => h.box.pending.Some?
    case _ => true
  }

  lemma StepKeepsPrompt(h: Host, step: Step)
    requires Prompt(h) && !step.Shutdown?
    ensures Prompt(Next(h, step))
  {}

  /** In every run without a shutdown, a command that wakes has its reply. */
  lemma {:induction false} WokenHasReply(h: Host, steps: seq<Step>)
    requires Prompt(h) && forall s <- steps :: !s.Shutdown?
    ensures Prompt(Run(h, steps))
    decreases |steps|
  {
    hide Next;
    if steps != [] {
      assert steps[0] in steps;
      StepKeepsPrompt(h, steps[0]);
      WokenHasReply(Next(h, steps[0]), steps[1..]);
    }
  }

  function Empty(h: Host): Return
    requires h.phase.Unwritten? || h.phase.Waiting?
  {
    Return(h.phase.caller, h.phase.sub, h.since, None)
  }

  /** Without a reply a command returns empty: at once when its request cannot be
      written, when it gives up, and when a shutdown wakes it. */
  lemma EmptyReturns(h: Host)
    ensures h.phase.Unwritten? ==> Next(Next(h, Write(false)), Leave).returned == h.returned + [Empty(h)]
    ensures h.phase.Waiting? ==> Next(Next(h, GiveUp), Leave).returned == h.returned + [Empty(h)]
    ensures h.phase.Waiting? && h.box.pending.None? ==>
              Next(Next(Next(Next(h, Shutdown), Wake), ReadPending), Leave).returned == h.returned + [Empty(h)]
  {}

  // ----- A reply older than its command -----

  /** The command was answered by a reply that arrived before it took the lock. */
  predicate Predates(r: Return) { r.result.Some? && r.result.value.id < r.since }

  /** An acceptable reply from before the command is still queued. */
  predicate OldReplyQueued(h: Host)
    requires h.phase.Locked?
  {
    exists i :: 0 <= i < |h.box.queue| && h.box.queue[i].id < h.since
                && h.box.queue[i].response.sub in Acceptable(h.phase.sub)
  }

  /** A command returns a reply older than itself exactly when its scan finds an
      acceptable one queued; what it waits for is always newer. */
  lemma PredatesIff(h: Host, step: Step)
    requires Inv(h) && |Next(h, step).returned| > |h.returned|
    ensures Predates(Next(h, step).returned[|h.returned|]) <==> step.Scan? && h.phase.Locked? && OldReplyQueued(h)
  {
    if step.Scan? {
      var k := FirstMatch(h.box.queue, Acceptable(h.phase.sub));
      if OldReplyQueued(h) {
        var i :| 0 <= i < |h.box.queue| && h.box.queue[i].id < h.since
                 && h.box.queue[i].response.sub in Acceptable(h.phase.sub);
        assert k <= i;
      }
    }
  }

  /** It happens: a reply nobody asked for answers the next command of its kind. */
  lemma OldReplyAnswers(caller: nat)
    ensures var h := Run(START, [FrameArrives([0x06, 0x91]), Acquire(caller, 0x11), Scan]);
            |h.returned| == 1 && h.returned[0].result == Some(Tagged(0, Response(0x91, []))) && Predates(h.returned[0])
  {
    var steps := [FrameArrives([0x06, 0x91]), Acquire(caller, 0x11), Scan];
    var t := Tagged(0, Response(0x91, []));
    assert Route([0x06, 0x91]) == Reply(t.response);
    var a := Next(START, steps[0]);
    assert a == START.(box := START.box.(queue := [t]), arrivals := [t.response]);
    var b := Next(a, steps[1]);
    var c := Next(b, steps[2]);
    assert FirstMatch([t], Acceptable(0x11)) == 0;
    assert c.returned == [Return(caller, 0x11, 1, Some(t))];
    assert steps[1..][1..] == [Scan] && [Scan][1..] == [];
    assert Run(b, [Scan]) == c && Run(a, steps[1..]) == Run(b, [Scan]);
  }

  // ----- A reply older than its request -----

  /** Steps that leave a waiting command where it is, or wake it. */
  predicate Passes(step: Step) { step.FrameArrives? || step.Wake? || step.Shutdown? || step.Acquire? }

  /** The step delivers a reply that the command accepts. */
  predicate Answers(step: Step, sub: byte) {
    step.FrameArrives? && Route(step.frame).Reply? && Route(step.frame).response.sub in Acceptable(sub)
  }

  /** What waits for the command after any steps between its write and its
      reading: a reply newer than the write if one answered, and else what it
      already had. */
  lemma {:induction false} PendingAfter(h: Host, steps: seq<Step>)
    requires (h.phase.Waiting? || h.phase.Woken?) && h.box.expected == Some(Acceptable(h.phase.sub))
    requires forall s <- steps :: Passes(s)
    ensures var r := Run(h, steps);
            && (r.phase.Waiting? || r.phase.Woken?) && r.phase.sub == h.phase.sub && r.phase.caller == h.phase.caller
            && (if exists s <- steps :: Answers(s, h.phase.sub)
                then r.box.pending.Some? && r.box.pending.value.id >= |h.arrivals|
                else r.box.pending == h.box.pending)
    decreases |steps|
  {
    if steps != [] {
      var s, m, rest := steps[0], Next(h, steps[0]), steps[1..];
      assert s in steps && Passes(s);
      assert forall t <- rest :: t in steps;
      assert forall t <- steps :: t == s || t in rest;
      hide Acceptable;
      StepWhileWaiting(h, s);
      PendingAfter(m, rest);
    }
  }

  lemma StepWhileWaiting(h: Host, step: Step)
    requires (h.phase.Waiting? || h.phase.Woken?) && h.box.expected == Some(Acceptable(h.phase.sub)) && Passes(step)
    ensures var r := Next(h, step);
            && (r.phase.Waiting? || r.phase.Woken?) && r.phase.sub == h.phase.sub && r.phase.caller == h.phase.caller
            && r.box.expected == h.box.expected && |r.arrivals| >= |h.arrivals|
            && (if Answers(step, h.phase.sub) then r.box.pending.Some? && r.box.pending.value.id == |h.arrivals|
                else r.box.pending == h.box.pending)
  {
    hide Acceptable, Route;
  }

  /** A command that wrote its request returns a reply that came before the write
      exactly when it already had one then, and none that it accepts came in since. */
  lemma OlderThanRequestIff(h: Host, steps: seq<Step>)
    requires Inv(h) && h.phase.Unwritten? && (forall s <- steps :: Passes(s))
    requires Run(Next(h, Write(true)), steps).phase.Woken?
    ensures var r := Next(Run(Next(h, Write(true)), steps), ReadPending);
            r.phase.Leaving? && r.phase.sub == h.phase.sub &&
            (r.phase.result.Some? && r.phase.result.value.id < |h.arrivals| <==>
             h.box.pending.Some? && !exists s <- steps :: Answers(s, h.phase.sub))
  {
    PendingAfter(Next(h, Write(true)), steps);
  }

  /** It happens: the reply comes after the mailbox is armed and before the
      request is written. */
  lemma EarlyReplyAnswers(caller: nat)
    ensures var h := Run(START, [Acquire(caller, 0x11), Scan, FrameArrives([0x06, 0x91]), Write(true), Wake,
                                 ReadPending, Leave]);
            h.returned == [Return(caller, 0x11, 0, Some(Tagged(0, Response(0x91, []))))]
  {
    var t := Tagged(0, Response(0x91, []));
    assert Route([0x06, 0x91]) == Reply(t.response);
    var steps := [Acquire(caller, 0x11), Scan, FrameArrives([0x06, 0x91]), Write(true), Wake, ReadPending, Leave];
    var a := Next(Next(START, steps[0]), steps[1]);
    assert a == Host(Phase.Unwritten(caller, 0x11), 0, Armed(START.box, Acceptable(0x11)), [], []);
    var b := Next(a, steps[2]);
    assert b.box.pending == Some(t) && b.box.event && b.phase == a.phase;
    hide Acceptable, Route;
    var c := Next(b, steps[3]);
    var d, e := Next(c, steps[4]), Next(Next(c, steps[4]), steps[5]);
    RunSteps(START, steps);
    RunSteps(Next(START, steps[0]), steps[1..]);
    RunSteps(a, steps[2..]);
    RunSteps(b, steps[3..]);
    RunSteps(c, steps[4..]);
    RunSteps(d, steps[5..]);
    RunSteps(e, steps[6..]);
    assert steps[7..] == [];
  }

  lemma RunSteps(h: Host, steps: seq<Step>)
    requires steps != []
    ensures Run(h, steps) == Run(Next(h, steps[0]), steps[1..])
  {}
}
