/** Pairing received Data frames with the signal metrics that follow them.

    Data frames wait in a queue with a deadline.  An RX_META takes the oldest;
    a flush releases expired ones with sentinel metrics; a link change drops
    them all. */
module RxPairing {
  import opened Bytes
  import opened Options

  const MAX_PENDING: nat := 64
  const META_WAIT: real := 0.25

  datatype Pending = Pending(payload: seq<byte>, deadline: real)

  /** A packet as handed on: with the metrics of an RX_META, or without. */
  datatype Packet = Packet(payload: seq<byte>, meta: Option<seq<byte>>)

  datatype Link = Link(pending: seq<Pending>, delivered: seq<Packet>, overruns: nat)

  function Payloads(pending: seq<Pending>): seq<seq<byte>> {
    if pending == [] then [] else [pending[0].payload] + Payloads(pending[1..])
  }

  function PacketPayloads(ps: seq<Packet>): seq<seq<byte>> {
    if ps == [] then [] else [ps[0].payload] + PacketPayloads(ps[1..])
  }

  // ----- The regions the pending lock protects -----

  function OnData(l: Link, payload: seq<byte>, now: real): Link {
    if |l.pending| >= MAX_PENDING then l.(overruns := l.overruns + 1)
    else l.(pending := l.pending + [Pending(payload, now + META_WAIT)])
  }

  function OnMeta(l: Link, meta: seq<byte>): Link {
    if l.pending == [] then l
    else l.(pending := l.pending[1..], delivered := l.delivered + [Packet(l.pending[0].payload, Some(meta))])
  }

  /** One turn of the flush loop. */
  function FlushOne(l: Link): Link
    requires l.pending != []
  {
    l.(pending := l.pending[1..], delivered := l.delivered + [Packet(l.pending[0].payload, None)])
  }

  function Flush(l: Link, now: real): Link
    decreases |l.pending|
  {
    if l.pending == [] || l.pending[0].deadline > now then l else Flush(FlushOne(l), now)
  }

  class PendingRx {
    var pending: seq<Pending>
    var delivered: seq<Packet>
    var overruns: nat

    function State(): Link
      reads this
    {
      Link(pending, delivered, overruns)
    }

    constructor ()
      ensures State() == Link([], [], 0)
    {
      pending, delivered, overruns := [], [], 0;
    }

    method Accept(payload: seq<byte>, now: real)
      modifies this
      ensures State() == OnData(old(State()), payload, now)
    {
      if |pending| >= MAX_PENDING {
        overruns := overruns + 1;
      } else {
        pending := pending + [Pending(payload, now + 0.25)];
      }
    }

    method Pair(meta: seq<byte>)
      modifies this
      ensures State() == OnMeta(old(State()), meta)
    {
      if |pending| > 0 {
        var head := pending[0];
        pending := pending[1..];
        delivered := delivered + [Packet(head.payload, Some(meta))];
      }
    }

    /** Only the head is inspected. */
    method FlushExpired(now: real)
      modifies this
      ensures State() == Flush(old(State()), now)
    {
      while |pending| > 0 && pending[0].deadline <= now
        invariant Flush(State(), now) == Flush(old(State()), now)
        decreases |pending|
      {
        var head := pending[0];
        pending := pending[1..];
        delivered := delivered + [Packet(head.payload, None)];
      }
    }

    method ClearPending()
      modifies this
      ensures State() == old(State()).(pending := [])
    {
      pending := [];
    }
  }

  // ----- Runs -----

  datatype Event =
    | DataArrives(payload: seq<byte>, now: real)
    | MetaArrives(meta: seq<byte>)
    | FlushTurn(now: real)
    | Cleared

  /** One lock region at a time: the flush loop can be cut by a clear, so each
      of its turns is an event. */
  function Next(l: Link, e: Event): Link {
    match e
    case DataArrives(payload, now) => OnData(l, payload, now)
    case MetaArrives(meta) => OnMeta(l, meta)
    case FlushTurn(now) => if l.pending != [] && l.pending[0].deadline <= now then FlushOne(l) else l
    case Cleared => l.(pending := [])
  }

  function Run(l: Link, events: seq<Event>): Link
    decreases |events|
  {
    if events == [] then l else Run(Next(l, events[0]), events[1..])
  }

  /** The clock readings of the receive thread do not decrease. */
  predicate Monotone(now: real, events: seq<Event>)
    decreases |events|
  {
    events == [] ||
    (match events[0]
     case DataArrives(_, t) => now <= t && Monotone(t, events[1..])
     case FlushTurn(t) => now <= t && Monotone(t, events[1..])
     case _ => Monotone(now, events[1..]))
  }

  predicate NoClear(events: seq<Event>) {
    forall e <- events :: !e.Cleared?
  }

  // ----- What every run keeps -----

  predicate Ordered(pending: seq<Pending>) {
    forall i, j :: 0 <= i < j < |pending| ==> pending[i].deadline <= pending[j].deadline
  }

  predicate Inv(l: Link, now: real) {
    && |l.pending| <= 64
    && Ordered(l.pending)
    && forall i :: 0 <= i < |l.pending| ==> l.pending[i].deadline <= now + 0.25
  }

  function ClockAfter(now: real, e: Event): real {
    match e
    case DataArrives(_, t) => t
    case FlushTurn(t) => t
    case _ => now
  }

  function ClockEnd(now: real, events: seq<Event>): real
    decreases |events|
  {
    if events == [] then now else ClockEnd(ClockAfter(now, events[0]), events[1..])
  }

  lemma StepKeepsInv(l: Link, now: real, e: Event)
    requires Inv(l, now) && now <= ClockAfter(now, e)
    ensures Inv(Next(l, e), ClockAfter(now, e))
  {}

  /** Deadlines stay in order and the queue stays within its limit. */
  lemma {:induction false} RunKeepsInv(l: Link, now: real, events: seq<Event>)
    requires Inv(l, now) && Monotone(now, events)
    ensures Inv(Run(l, events), ClockEnd(now, events))
    decreases |events|
  {
    if events != [] {
      StepKeepsInv(l, now, events[0]);
      RunKeepsInv(Next(l, events[0]), ClockAfter(now, events[0]), events[1..]);
    }
  }

  /** Looking only at the head suffices: after a flush nothing expired is left,
      and everything flushed had expired. */
  lemma {:induction false} FlushIsComplete(l: Link, now: real)
    requires Ordered(l.pending)
    ensures var r := Flush(l, now);
            && (forall i :: 0 <= i < |r.pending| ==> r.pending[i].deadline > now)
            && exists k :: 0 <= k <= |l.pending| && r.pending == l.pending[k..]
                           && forall i :: 0 <= i < k ==> l.pending[i].deadline <= now
    decreases |l.pending|
  {
    if l.pending == [] || l.pending[0].deadline > now {
      assert l.pending == l.pending[0..];
    } else {
      var m := FlushOne(l);
      FlushIsComplete(m, now);
      var r := Flush(m, now);
      var k :| 0 <= k <= |m.pending| && r.pending == m.pending[k..]
               && forall i :: 0 <= i < k ==> m.pending[i].deadline <= now;
      assert m.pending[k..] == l.pending[k + 1..];
      forall i | 0 <= i < k + 1 ensures l.pending[i].deadline <= now {
        if i > 0 { assert l.pending[i] == m.pending[i - 1]; }
      }
    }
  }

  function Turns(n: nat, now: real): seq<Event> {
    if n == 0 then [] else [FlushTurn(now)] + Turns(n - 1, now)
  }

  /** An undisturbed flush is its turns, one after another. */
  lemma {:induction false} FlushIsTurns(l: Link, now: real, n: nat)
    requires n >= |l.pending|
    ensures Flush(l, now) == Run(l, Turns(n, now))
    decreases n
  {
    if n > 0 {
      assert Turns(n, now)[1..] == Turns(n - 1, now);
      var m := Next(l, FlushTurn(now));
      if m != l { FlushIsTurns(m, now, n - 1); } else { IdleTurns(l, now, n - 1); }
    }
  }

  lemma {:induction false} IdleTurns(l: Link, now: real, n: nat)
    requires Next(l, FlushTurn(now)) == l
    ensures Run(l, Turns(n, now)) == l
    decreases n
  {
    if n > 0 {
      assert Turns(n, now)[1..] == Turns(n - 1, now);
      IdleTurns(l, now, n - 1);
    }
  }

  /** The payloads of the Data frames a run accepts. */
  function Accepted(l: Link, events: seq<Event>): seq<seq<byte>>
    decreases |events|
  {
    if events == [] then []
    else (if events[0].DataArrives? && |l.pending| < 64 then [events[0].payload] else [])
         + Accepted(Next(l, events[0]), events[1..])
  }

  lemma {:induction false} PayloadsAppend(a: seq<Pending>, b: seq<Pending>)
    ensures Payloads(a + b) == Payloads(a) + Payloads(b)
  {
    if a == [] {
      assert a + b == b;
    } else {
      assert (a + b)[1..] == a[1..] + b;
      PayloadsAppend(a[1..], b);
    }
  }

  lemma {:induction false} PacketPayloadsAppend(a: seq<Packet>, b: seq<Packet>)
    ensures PacketPayloads(a + b) == PacketPayloads(a) + PacketPayloads(b)
  {
    if a == [] {
      assert a + b == b;
    } else {
      assert (a + b)[1..] == a[1..] + b;
      PacketPayloadsAppend(a[1..], b);
    }
  }

  lemma StepConserves(l: Link, e: Event)
    requires !e.Cleared?
    ensures var r := Next(l, e);
            PacketPayloads(r.delivered) + Payloads(r.pending) ==
            PacketPayloads(l.delivered) + Payloads(l.pending)
            + (if e.DataArrives? && |l.pending| < 64 then [e.payload] else [])
  {
    var r := Next(l, e);
    if e.DataArrives? && |l.pending| < MAX_PENDING {
      PayloadsAppend(l.pending, [Pending(e.payload, e.now + META_WAIT)]);
      assert Payloads([Pending(e.payload, e.now + META_WAIT)]) == [e.payload];
    } else if r.delivered != l.delivered {
      var p := r.delivered[|l.delivered|];
      assert r.delivered == l.delivered + [p];
      PacketPayloadsAppend(l.delivered, [p]);
      assert PacketPayloads([p]) == [p.payload];
    }
  }

  /** Every Data frame of a run is accepted or counted as an overrun. */
  lemma {:induction false} OverrunsAreCounted(l: Link, events: seq<Event>)
    ensures |Accepted(l, events)| + (Run(l, events).overruns - l.overruns) == |Datas(events)|
    decreases |events|
  {
    if events != [] { OverrunsAreCounted(Next(l, events[0]), events[1..]); }
  }

  /** A frame that no metrics follow waits for a quarter of a second: a flush
      before that leaves it, and the first one from then on hands on, without
      metrics, everything that waits, this frame last. */
  lemma WaitsForMetrics(l: Link, payload: seq<byte>, t: real, now: real)
    requires Inv(l, t) && |l.pending| < 64
    ensures var r := Flush(OnData(l, payload, t), now);
            if now < t + 0.25 then r.pending != [] && r.pending[|r.pending| - 1].payload == payload
            else
              && r.pending == [] && r.delivered != []
              && r.delivered[|r.delivered| - 1] == Packet(payload, None)
  {
    var m := OnData(l, payload, t);
    var last := m.pending[|m.pending| - 1];
    FlushEnds(m, now, last);
  }

  lemma {:induction false} FlushEnds(l: Link, now: real, last: Pending)
    requires l.pending != [] && last == l.pending[|l.pending| - 1] && Ordered(l.pending)
    ensures var r := Flush(l, now);
            if now < last.deadline then r.pending != [] && r.pending[|r.pending| - 1] == last
            else r.pending == [] && r.delivered != [] && r.delivered[|r.delivered| - 1] == Packet(last.payload, None)
    decreases |l.pending|
  {
    if l.pending[0].deadline <= now {
      var m := FlushOne(l);
      if m.pending != [] { FlushEnds(m, now, last); }
    }
  }

  /** Conservation: between clears, what has been delivered followed by what is
      still pending is exactly what was accepted, in arrival order. */
  lemma {:induction false} ArrivalOrderIsKept(l: Link, events: seq<Event>)
    requires NoClear(events)
    ensures var r := Run(l, events);
            PacketPayloads(r.delivered) + Payloads(r.pending) ==
            PacketPayloads(l.delivered) + Payloads(l.pending) + Accepted(l, events)
    decreases |events|
  {
    if events != [] {
      var m := Next(l, events[0]);
      assert !events[0].Cleared?;
      StepConserves(l, events[0]);
      ArrivalOrderIsKept(m, events[1..]);
    }
  }

  // ----- Metrics meet their own packet -----

  function Datas(events: seq<Event>): seq<seq<byte>> {
    if events == [] then []
    else (if events[0].DataArrives? then [events[0].payload] else []) + Datas(events[1..])
  }

  function Metas(events: seq<Event>): seq<seq<byte>> {
    if events == [] then []
    else (if events[0].MetaArrives? then [events[0].meta] else []) + Metas(events[1..])
  }

  function Zip(payloads: seq<seq<byte>>, metas: seq<seq<byte>>): seq<Packet>
    requires |metas| <= |payloads|
  {
    if metas == [] then [] else [Packet(payloads[0], Some(metas[0]))] + Zip(payloads[1..], metas[1..])
  }

  predicate Settled(r: Link, delivered: seq<Packet>, datas: seq<seq<byte>>, metas: seq<seq<byte>>) {
    && |metas| <= |datas|
    && r.delivered == delivered + Zip(datas, metas)
    && Payloads(r.pending) == datas[|metas|..]
  }

  /** The pairing the modem means: of the Data frames pending at the start and
      received since, the first as many as there were metrics are delivered, the
      n-th with the n-th metrics, and the rest are pending in order. */
  predicate Paired(l: Link, events: seq<Event>) {
    Settled(Run(l, events), l.delivered, Payloads(l.pending) + Datas(events), Metas(events))
  }

  /** The guards of the branches that keep it: room for a Data frame, a frame
      for the metrics, nothing expired to flush, nothing pending to clear. */
  predicate KeepsPairing(l: Link, e: Event) {
    match e
    case DataArrives(_, _) => |l.pending| < MAX_PENDING
    case MetaArrives(_) => l.pending != []
    case FlushTurn(now) => l.pending == [] || l.pending[0].deadline > now
    case Cleared => l.pending == []
  }

  predicate AllKeepPairing(l: Link, events: seq<Event>)
    decreases |events|
  {
    events == [] || (KeepsPairing(l, events[0]) && AllKeepPairing(Next(l, events[0]), events[1..]))
  }

  lemma {:induction false} PayloadCount(pending: seq<Pending>)
    ensures |Payloads(pending)| == |pending|
  {
    if pending != [] { PayloadCount(pending[1..]); }
  }

  lemma {:induction false} ZipCount(payloads: seq<seq<byte>>, metas: seq<seq<byte>>)
    requires |metas| <= |payloads|
    ensures |Zip(payloads, metas)| == |metas|
  {
    if metas != [] { ZipCount(payloads[1..], metas[1..]); }
  }

  /** What one event adds to the Data frames and to the metrics. */
  lemma Unfold(e: Event, rest: seq<Event>)
    ensures var events := [e] + rest;
            && Datas(events) == (if e.DataArrives? then [e.payload] + Datas(rest) else Datas(rest))
            && Metas(events) == (if e.MetaArrives? then [e.meta] + Metas(rest) else Metas(rest))
            && forall l :: Run(l, events) == Run(Next(l, e), rest)
  {
    assert ([e] + rest)[0] == e && ([e] + rest)[1..] == rest;
  }

  /** A step that fails its guard breaks the pairing at once. */
  lemma FailedGuardUnpairs(l: Link, e: Event)
    requires !KeepsPairing(l, e)
    ensures !Paired(l, [e])
  {
    var r, datas, metas := Run(l, [e]), Payloads(l.pending) + Datas([e]), Metas([e]);
    Unfold(e, []);
    assert [e] + [] == [e] && r == Next(l, e);
    PayloadCount(l.pending);
    PayloadCount(r.pending);
    if |metas| <= |datas| { ZipCount(datas, metas); }
  }

  /** Behind a step that meets its guard the same pairing is asked for. */
  lemma PairingBehindData(l: Link, e: Event, rest: seq<Event>)
    requires e.DataArrives? && KeepsPairing(l, e)
    ensures Paired(l, [e] + rest) <==> Paired(Next(l, e), rest)
  {
    var events, p := [e] + rest, Pending(e.payload, e.now + META_WAIT);
    Unfold(e, rest);
    PayloadsAppend(l.pending, [p]);
    assert Payloads([p]) == [e.payload];
    AppendAssoc(Payloads(l.pending), [e.payload], Datas(rest));
  }

  lemma SettleOne(r: Link, delivered: seq<Packet>, data: seq<byte>, datas: seq<seq<byte>>,
                  meta: seq<byte>, metas: seq<seq<byte>>)
    ensures Settled(r, delivered, [data] + datas, [meta] + metas) <==>
            Settled(r, delivered + [Packet(data, Some(meta))], datas, metas)
  {
    hide Payloads;
    var all, both, p := [data] + datas, [meta] + metas, Packet(data, Some(meta));
    if |metas| <= |datas| {
      assert all[1..] == datas && both[1..] == metas && all[|both|..] == datas[|metas|..];
      assert Zip(all, both) == [p] + Zip(datas, metas);
      AppendAssoc(delivered, [p], Zip(datas, metas));
    }
  }

  lemma PairingBehindMeta(l: Link, e: Event, rest: seq<Event>)
    requires e.MetaArrives? && KeepsPairing(l, e)
    ensures Paired(l, [e] + rest) <==> Paired(Next(l, e), rest)
  {
    hide Settled, Run;
    Unfold(e, rest);
    var m, data := Next(l, e), l.pending[0].payload;
    assert Payloads(l.pending) == [data] + Payloads(m.pending);
    AppendAssoc([data], Payloads(m.pending), Datas(rest));
    SettleOne(Run(m, rest), l.delivered, data, Payloads(m.pending) + Datas(rest), e.meta, Metas(rest));
  }

  lemma PairingBehind(l: Link, e: Event, rest: seq<Event>)
    requires KeepsPairing(l, e)
    ensures Paired(l, [e] + rest) <==> Paired(Next(l, e), rest)
  {
    match e
    case DataArrives(_, _) => PairingBehindData(l, e, rest);
    case MetaArrives(_) => PairingBehindMeta(l, e, rest);
    case _ =>
      assert Next(l, e) == l;
      Unfold(e, rest);
  }

  lemma EmptyRunIsPaired(l: Link)
    ensures Paired(l, [])
  {
    assert Payloads(l.pending) + [] == Payloads(l.pending);
    assert Zip(Payloads(l.pending) + [], []) == [];
  }

  /** Over every run, flushes and clears included: after every prefix each Data
      frame is delivered or pending in order and the n-th metrics are on the n-th
      packet, exactly when every step meets the guard of its branch. */
  lemma {:induction false} MetricsMeetTheirPacketIff(l: Link, events: seq<Event>)
    ensures (forall n :: 0 <= n <= |events| ==> Paired(l, events[..n])) <==> AllKeepPairing(l, events)
    decreases |events|
  {
    hide Paired;
    EmptyRunIsPaired(l);
    if events == [] { return; }
    var e, rest := events[0], events[1..];
    if !KeepsPairing(l, e) {
      assert events[..1] == [e];
      FailedGuardUnpairs(l, e);
      return;
    }
    var m := Next(l, e);
    MetricsMeetTheirPacketIff(m, rest);
    forall n | 0 <= n <= |rest| ensures Paired(l, events[..n + 1]) <==> Paired(m, rest[..n]) {
      assert events[..n + 1] == [e] + rest[..n];
      PairingBehind(l, e, rest[..n]);
    }
    if forall n :: 0 <= n <= |events| ==> Paired(l, events[..n]) {
      forall n | 0 <= n <= |rest| ensures Paired(m, rest[..n]) {
        assert Paired(l, events[..n + 1]);
      }
    }
    if AllKeepPairing(m, rest) {
      forall n | 0 <= n <= |events| ensures Paired(l, events[..n]) {
        if n > 0 { assert Paired(m, rest[..n - 1]) && events[..(n - 1) + 1] == events[..n]; }
      }
    }
  }

  /** One expired head is enough for the pairing to slip: the late metrics of a
      flushed packet are handed to the next one. */
  lemma FlushedMetricsSlip(first: seq<byte>, second: seq<byte>, late: seq<byte>)
    ensures Run(Link([], [], 0),
                [DataArrives(first, 0.0), FlushTurn(1.0), DataArrives(second, 1.0), MetaArrives(late)]).delivered
            == [Packet(first, None), Packet(second, Some(late))]
  {
    var events := [DataArrives(first, 0.0), FlushTurn(1.0), DataArrives(second, 1.0), MetaArrives(late)];
    var l0 := Link([], [], 0);
    var l1 := Link([Pending(first, 0.25)], [], 0);
    var l2 := Link([], [Packet(first, None)], 0);
    var l3 := Link([Pending(second, 1.25)], [Packet(first, None)], 0);
    var l4 := Link([], [Packet(first, None), Packet(second, Some(late))], 0);
    assert Next(l0, events[0]) == l1 && Next(l1, events[1]) == l2;
    assert Next(l2, events[2]) == l3 && Next(l3, events[3]) == l4;
    assert events[3..][1..] == [] && events[2..][1..] == events[3..];
    assert events[1..][1..] == events[2..];
    assert Run(l2, events[2..]) == Run(l3, events[3..]) == Run(l4, events[3..][1..]) == l4;
    assert Run(l0, events) == Run(l1, events[1..]) == Run(l2, events[2..]);
  }
}
