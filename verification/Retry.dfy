/** The request driver: up to three attempts, every retry flooding with the
    contact's stored route masked, each packet scoped as it is sent. */
module Retry {
  import opened Options
  import opened FloodScope

  const MAX_ATTEMPTS := 3

  /** A contact proxy; some cannot have their route assigned. */
  class Proxy {
    var outPathLen: Option<int>
    const settable: bool

    constructor (route: Option<int>, settable: bool)
      ensures outPathLen == route && this.settable == settable
    {
      outPathLen, this.settable := route, settable;
    }
  }

  predicate HasPath(route: Option<int>) { route.Some? && route.value >= 0 }

  /** What other tasks can change while the driver is suspended. */
  datatype World = World(route: Option<int>, scope: Scope)

  /** What one attempt meets: a builder that may hand out no packet, or one that
      already carries decisions; the adaptive timeout and the clock; whether the
      send or the wait raises, and whether the wait times out; and the world as
      it is when each of the two awaits ends. */
  datatype Turn = Turn(
    missing: bool, scopeApplied: bool, hashApplied: bool, timeout: real, now: real,
    sendRaises: bool, waitRaises: bool, timedOut: bool, afterSend: World, afterWait: World)

  /** A transmission: the packet, the route in place while the send and the wait
      are awaited, the time and the length of the wait. */
  datatype Sent = Sent(route: Route, decided: bool, transport: Option<Key>, pathSending: Option<int>,
                       pathWaiting: Option<int>, at: real, wait: real)

  datatype Outcome = Replied | TimedOut | Raised

  /** The builder has a packet that carries no decision. */
  predicate Fresh(turn: Turn) { !turn.missing && !turn.scopeApplied && !turn.hashApplied }

  /** `builds` is the route the builder gives a packet for a path. A marked packet
      is an error; a missing one is passed on. */
  method TakeBuiltPacket(proxy: Proxy, builds: Option<int> -> Route, turn: Turn) returns (ok: bool, p: Packet?)
    ensures !ok <==> !turn.missing && (turn.scopeApplied || turn.hashApplied)
    ensures ok && p != null <==> Fresh(turn)
    ensures p != null ==> fresh(p) && p.scopeApplied == turn.scopeApplied && p.transport == None
    ensures p != null ==> p.route == builds(proxy.outPathLen)
  {
    if turn.missing { return true, null; }
    p := new Packet(builds(proxy.outPathLen), turn.scopeApplied);
    ok := !turn.scopeApplied && !turn.hashApplied;
  }

  /** The path a packet is built for: a retry hides the one the contact holds,
      where the proxy lets it. */
  function PathFor(i: nat, route: Option<int>, settable: bool): Option<int> {
    if i > 0 && HasPath(route) && settable then Some(-1) else route
  }

  /** The route is as before on every exit. */
  method BuildRetryPacket(proxy: Proxy, builds: Option<int> -> Route, turn: Turn) returns (ok: bool, p: Packet?)
    modifies proxy
    ensures proxy.outPathLen == old(proxy.outPathLen)
    ensures !ok <==> !turn.missing && (turn.scopeApplied || turn.hashApplied)
    ensures ok && p != null <==> Fresh(turn)
    ensures p != null ==> fresh(p) && p.scopeApplied == turn.scopeApplied && p.transport == None
    ensures p != null ==> p.route == builds(PathFor(1, proxy.outPathLen, proxy.settable))
  {
    var saved := proxy.outPathLen;
    if !HasPath(saved) || !proxy.settable {
      ok, p := TakeBuiltPacket(proxy, builds, turn);
      return;
    }
    proxy.outPathLen := Some(-1);
    ok, p := TakeBuiltPacket(proxy, builds, turn);
    proxy.outPathLen := saved;
  }

  /** Other tasks run. */
  method Suspend(proxy: Proxy, scopes: FloodScopes, w: World)
    modifies proxy, scopes
    ensures proxy.outPathLen == w.route && scopes.State() == w.scope
  {
    proxy.outPathLen := w.route;
    scopes.unscoped, scopes.transientKey := w.scope.unscoped, w.scope.transientKey;
    scopes.name, scopes.key := w.scope.name, w.scope.key;
  }

  function EndOf(turn: Turn): Outcome {
    if turn.sendRaises || turn.waitRaises then Raised else if turn.timedOut then TimedOut else Replied
  }

  /** The world that the other tasks left before attempt `i`. */
  function WorldBefore(start: World, turns: seq<Turn>, i: nat): World
    requires i <= |turns|
  {
    if i == 0 then start else if turns[i - 1].sendRaises then turns[i - 1].afterSend else turns[i - 1].afterWait
  }

  /** The attempt transmits: its packet is fresh and the budget is not spent. */
  predicate Transmits(turn: Turn, deadline: Option<real>) {
    Fresh(turn) && (deadline.Some? ==> turn.now < deadline.value)
  }

  /** One transmission in the world `w`: a flood carries the region in force at
      that moment and is marked, any other packet carries none; the wait ends
      within the budget; the path the other tasks left is in place at each await. */
  predicate SentOk(s: Sent, built: Route, w: World, turn: Turn, deadline: Option<real>) {
    && s.pathSending == w.route && s.pathWaiting == turn.afterSend.route && s.at == turn.now
    && s.decided == (built == Flood)
    && s.transport == (if built == Flood then Decision(w.scope) else None)
    && s.route == (if built == Flood && Decision(w.scope).Some? then TransportFlood else built)
    && s.wait <= turn.timeout && (deadline.Some? ==> s.at + s.wait <= deadline.value)
    && (s.wait == turn.timeout || (deadline.Some? && s.at + s.wait == deadline.value))
  }

  /** The builder floods exactly when the proxy shows no path. */
  ghost predicate FloodsWithoutPath(builds: Option<int> -> Route) {
    forall r :: builds(r) == Flood <==> !HasPath(r)
  }

  /** A flood, marked, in the region in force. */
  predicate DecidedFlood(s: Sent, scope: Scope) {
    && s.decided && s.transport == Decision(scope)
    && s.route == if Decision(scope).Some? then TransportFlood else Flood
  }

  /** A retry floods exactly when the route can be masked or there is none. */
  lemma RetryFloodsIff(s: Sent, builds: Option<int> -> Route, i: nat, w: World, settable: bool, turn: Turn,
                       deadline: Option<real>)
    requires FloodsWithoutPath(builds) && i > 0
    requires SentOk(s, builds(PathFor(i, w.route, settable)), w, turn, deadline)
    ensures DecidedFlood(s, w.scope) <==> settable || !HasPath(w.route)
  {
    var path := PathFor(i, w.route, settable);
    assert builds(path) == Flood <==> !HasPath(path);
  }

  /** A builder as the driver expects it. */
  function ByPath(r: Option<int>): Route { if HasPath(r) then Direct else Flood }

  /** `total` of none or zero sets no budget. */
  function Deadline(start: real, total: Option<real>): Option<real> {
    if total.Some? && total.value != 0.0 then Some(start + total.value) else None
  }

  /** Attempt `i`; without a transmission it either raises or finds the budget
      spent. */
  method Attempt(proxy: Proxy, scopes: FloodScopes, builds: Option<int> -> Route, i: nat, deadline: Option<real>,
                 turn: Turn)
      returns (sent: Option<Sent>, end: Outcome)
    modifies proxy, scopes
    ensures sent.Some? <==> Transmits(turn, deadline)
    ensures end == if sent.Some? then EndOf(turn) else if Fresh(turn) then TimedOut else Raised
    ensures sent.Some? ==>
      SentOk(sent.value, builds(PathFor(i, old(proxy.outPathLen), proxy.settable)),
             World(old(proxy.outPathLen), old(scopes.State())), turn, deadline)
    ensures sent.Some? && FloodsWithoutPath(builds) && i > 0 ==>
      (DecidedFlood(sent.value, old(scopes.State())) <==> proxy.settable || !HasPath(old(proxy.outPathLen)))
    ensures World(proxy.outPathLen, scopes.State()) ==
            if sent.Some? then WorldBefore(World(old(proxy.outPathLen), old(scopes.State())), [turn], 1)
            else World(old(proxy.outPathLen), old(scopes.State()))
  {
    var ok, p;
    if i == 0 {
      ok, p := TakeBuiltPacket(proxy, builds, turn);
    } else {
      ok, p := BuildRetryPacket(proxy, builds, turn);
    }
    if !ok || p == null { return None, Raised; }
    scopes.ApplyFloodScope(p);
    var wait := turn.timeout;
    if deadline.Some? {
      var remaining := deadline.value - turn.now;
      if remaining <= 0.0 { return None, TimedOut; }
      wait := if turn.timeout <= remaining then turn.timeout else remaining;
    }
    var route, decided, transport, path := p.route, p.scopeApplied, p.transport, proxy.outPathLen;
    Suspend(proxy, scopes, turn.afterSend);
    sent := Some(Sent(route, decided, transport, path, proxy.outPathLen, turn.now, wait));
    if FloodsWithoutPath(builds) && i > 0 {
      RetryFloodsIff(sent.value, builds, i, World(old(proxy.outPathLen), old(scopes.State())), proxy.settable, turn,
                     deadline);
    }
    if turn.sendRaises { return sent, Raised; }
    Suspend(proxy, scopes, turn.afterWait);
    end := if turn.waitRaises then Raised else if turn.timedOut then TimedOut else Replied;
  }

  /** A budget ends all waiting when it is spent; without one the timeout alone
      ends a wait. */
  predicate WithinBudget(s: Sent, turn: Turn, start: real, total: Option<real>) {
    if total.Some? && total.value != 0.0 then s.at + s.wait <= start + total.value && s.at < start + total.value
    else s.wait == turn.timeout
  }

  lemma DeadlineIsBudget(s: Sent, built: Route, w: World, turn: Turn, start: real, total: Option<real>)
    requires Transmits(turn, Deadline(start, total)) && SentOk(s, built, w, turn, Deadline(start, total))
    ensures WithinBudget(s, turn, start, total)
  {}

  method RequestWithRetries(proxy: Proxy, scopes: FloodScopes, builds: Option<int> -> Route, start: real,
                            total: Option<real>, turns: seq<Turn>)
      returns (sent: seq<Sent>, outcome: Outcome)
    requires |turns| == 3
    modifies proxy, scopes
    // at most three transmissions, each as specified
    ensures |sent| <= 3
    ensures var w := World(old(proxy.outPathLen), old(scopes.State()));
            forall i :: 0 <= i < |sent| ==>
              SentOk(sent[i], builds(PathFor(i, WorldBefore(w, turns, i).route, proxy.settable)),
                     WorldBefore(w, turns, i), turns[i], Deadline(start, total))
    // no wait ends later than the budget allows; without one the timeout alone limits it
    ensures forall i :: 0 <= i < |sent| ==> WithinBudget(sent[i], turns[i], start, total)
    // with such a builder, a retry is a decided flood unless it has a path that cannot be masked
    ensures var w := World(old(proxy.outPathLen), old(scopes.State()));
            FloodsWithoutPath(builds) ==> forall i :: 1 <= i < |sent| ==>
              (DecidedFlood(sent[i], WorldBefore(w, turns, i).scope) <==>
               proxy.settable || !HasPath(WorldBefore(w, turns, i).route))
    // it goes on exactly while waits time out, the budget lasts and packets are fresh
    ensures forall i :: 0 <= i < |sent| ==> Transmits(turns[i], Deadline(start, total))
    ensures forall i :: 0 <= i < |sent| - 1 ==> EndOf(turns[i]) == TimedOut
    ensures |sent| == 3 || (|sent| > 0 && EndOf(turns[|sent| - 1]) != TimedOut)
            || !Transmits(turns[|sent|], Deadline(start, total))
    ensures outcome == if |sent| > 0 && EndOf(turns[|sent| - 1]) != TimedOut then EndOf(turns[|sent| - 1])
                       else if |sent| < 3 && !Fresh(turns[|sent|]) then Raised else TimedOut
    // a reply is returned exactly when the last wait brought one; a failed send or wait is never retried
    ensures outcome == Replied <==>
            |sent| > 0 && var t := turns[|sent| - 1]; !t.sendRaises && !t.waitRaises && !t.timedOut
    ensures |sent| > 0 && (turns[|sent| - 1].sendRaises || turns[|sent| - 1].waitRaises) ==> outcome == Raised
    ensures forall i :: 0 <= i < |sent| - 1 ==> !turns[i].sendRaises && !turns[i].waitRaises && turns[i].timedOut
    // the driver itself leaves the route and the scope as it found them
    ensures World(proxy.outPathLen, scopes.State()) ==
            WorldBefore(World(old(proxy.outPathLen), old(scopes.State())), turns, |sent|)
  {
    outcome, sent := TimedOut, [];
    var deadline := Deadline(start, total);
    ghost var w := World(proxy.outPathLen, scopes.State());
    var attempt := 0;
    while attempt < MAX_ATTEMPTS
      invariant attempt == |sent| <= MAX_ATTEMPTS && outcome == TimedOut
      invariant World(proxy.outPathLen, scopes.State()) == WorldBefore(w, turns, attempt)
      invariant forall i :: 0 <= i < attempt ==>
        SentOk(sent[i], builds(PathFor(i, WorldBefore(w, turns, i).route, proxy.settable)),
               WorldBefore(w, turns, i), turns[i], deadline)
      invariant forall i :: 0 <= i < attempt ==> WithinBudget(sent[i], turns[i], start, total)
      invariant FloodsWithoutPath(builds) ==> forall i :: 1 <= i < attempt ==>
        (DecidedFlood(sent[i], WorldBefore(w, turns, i).scope) <==>
         proxy.settable || !HasPath(WorldBefore(w, turns, i).route))
      invariant forall i :: 0 <= i < attempt ==> Transmits(turns[i], deadline) && EndOf(turns[i]) == TimedOut
    {
      hide SentOk, Deadline, Decision, PathFor, DecidedFlood, FloodsWithoutPath;
      var one, end := Attempt(proxy, scopes, builds, attempt, deadline, turns[attempt]);
      if one.None? { return sent, end; }
      DeadlineIsBudget(one.value, builds(PathFor(attempt, WorldBefore(w, turns, attempt).route, proxy.settable)),
                       WorldBefore(w, turns, attempt), turns[attempt], start, total);
      sent := sent + [one.value];
      if end != TimedOut { return sent, end; }
      attempt := attempt + 1;
    }
  }

  /** A run that does not flood: the proxy refuses the mask, nobody changes its
      route, and every wait times out. */
  method RefusedMaskGoesDirect(hops: nat, timeout: real, now: real) returns (sent: seq<Sent>)
    ensures FloodsWithoutPath(ByPath)
    ensures |sent| == 3 && forall i :: 0 <= i < |sent| ==> sent[i].route == Direct && !sent[i].decided
  {
    var proxy := new Proxy(Some(hops), false);
    var scopes := new FloodScopes("", [], NoKey);
    var w := World(Some(hops), Scope(false, None, "", []));
    var turn := Turn(false, false, false, timeout, now, false, false, true, w, w);
    var outcome;
    sent, outcome := RequestWithRetries(proxy, scopes, ByPath, now, None, [turn, turn, turn]);
  }

  function NoKey(region: string): Option<Key> { None }
}
