/** Logins of a companion: frame-server sessions, one per target key and reused
    by repeated commands, and plain logins, which share with them the login
    handler's one callback slot per key.

    Each stretch of code between two awaits is one step; the theorems range over
    every sequence of steps. */
module FrameLogin {
  const PENDING_TTL: real := 120.0

  type Key = seq<int>

  /** The background waiter of a session. */
  datatype Task = NoTask | Running | Cancelling | Finished

  /** Two fields are for the record: `refreshes`, when `expiresAt` was set, and
      `displaced`, whether a plain login for the key started while the session
      was stored. */
  datatype Session = Session(
    key: Key, answered: bool, expiresAt: real, task: Task, refreshes: seq<real>, displaced: bool)

  /** A plain login under way. */
  datatype Plain = Plain(key: Key, answered: bool)

  /** Whose callback is attached. */
  datatype Owner = OfSession(id: nat) | OfPlain(login: nat)

  /** A command that awaits its transmission. */
  datatype Sending = Sending(session: nat, owner: bool)

  datatype Ending = Answered | TimedOut | Cancelled

  /** What a waiter returned, when, and the refreshes it had seen by then. */
  datatype Result = Result(session: nat, ending: Ending, at: real, refreshes: seq<real>)

  /** `table[id]` is the session with that identity; `sessions` is the
      companion's map and `callbacks` the login handler's. */
  datatype Logins = Logins(
    table: seq<Session>, sessions: map<Key, nat>, callbacks: map<Key, Owner>, plains: map<nat, Plain>,
    commands: map<nat, Sending>, clock: real, results: seq<Result>)

  const START := Logins([], map[], map[], map[], map[], 0.0, [])

  datatype Step =
    | Start(command: nat, key: Key, now: real)
    | SendFails(command: nat)
    | SendSucceeds(command: nat, now: real)
    | SendRaises(command: nat)
    | Reply(key: Key)
    | WaiterRuns(session: nat, now: real)
    | ClearAll
    | PlainStarts(login: nat, key: Key)
    | PlainEnds(login: nat)

  predicate InMap(l: Logins, id: nat)
    requires id < |l.table|
  {
    l.table[id].key in l.sessions && l.sessions[l.table[id].key] == id
  }

  predicate Holds(callbacks: map<Key, Owner>, key: Key, owner: Owner) {
    key in callbacks && callbacks[key] == owner
  }

  /** A reply for its key would reach the session. */
  predicate Attached(l: Logins, id: nat)
    requires id < |l.table|
  {
    Holds(l.callbacks, l.table[id].key, OfSession(id))
  }

  // ----- What holds in every run -----

  /** A stored session is attached exactly until a plain login takes its slot. */
  predicate SessionOk(l: Logins, key: Key)
    requires key in l.sessions
  {
    var id := l.sessions[key];
    id < |l.table| && l.table[id].key == key && (Attached(l, id) <==> !l.table[id].displaced)
  }

  /** An attached callback belongs to the session stored for the key, or to a
      plain login for it that is under way. */
  predicate CallbackOk(l: Logins, key: Key)
    requires key in l.callbacks
  {
    match l.callbacks[key]
    case OfSession(id) => key in l.sessions && l.sessions[key] == id
    case OfPlain(login) => login in l.plains && l.plains[login].key == key
  }

  predicate Inv(l: Logins) {
    && (forall k :: k in l.sessions ==> SessionOk(l, k))
    && (forall k :: k in l.callbacks ==> CallbackOk(l, k))
    && (forall c :: c in l.commands ==> l.commands[c].session < |l.table|)
  }

  // ----- The steps -----

  /** `remove_login_callback`, guarded by identity. */
  function Detached(callbacks: map<Key, Owner>, key: Key, owner: Owner): map<Key, Owner> {
    if Holds(callbacks, key, owner) then callbacks - {key} else callbacks
  }

  /** Drop a session from both maps if it is the one stored for its key. */
  function Popped(l: Logins, id: nat): Logins
    requires id < |l.table|
  {
    if InMap(l, id) then
      l.(sessions := l.sessions - {l.table[id].key},
         callbacks := Detached(l.callbacks, l.table[id].key, OfSession(id)))
    else l
  }

  /** A session that has its answer, or whose waiter is done, is not reused. */
  predicate Stale(s: Session) { s.answered || s.task.Finished? }

  predicate Reusable(l: Logins, key: Key)
    requires Inv(l)
  {
    key in l.sessions && !Stale(l.table[l.sessions[key]])
  }

  function Dropped(l: Logins, key: Key): Logins
    requires Inv(l)
  {
    if key in l.sessions then Popped(l, l.sessions[key]) else l
  }

  function Opened(l: Logins, key: Key, now: real): Logins {
    l.(table := l.table + [Session(key, false, now + PENDING_TTL, NoTask, [now], false)],
       sessions := l.sessions[key := |l.table|], callbacks := l.callbacks[key := OfSession(|l.table|)])
  }

  /** The part of a command before its transmission is awaited. */
  function Started(l: Logins, command: nat, key: Key, now: real): Logins
    requires Inv(l)
  {
    if Reusable(l, key) then l.(commands := l.commands[command := Sending(l.sessions[key], false)])
    else Opened(Dropped(l, key), key, now).(commands := l.commands[command := Sending(|l.table|, true)])
  }

  function Refreshed(s: Session, now: real): Session {
    s.(expiresAt := now + PENDING_TTL, refreshes := s.refreshes + [now],
       task := if s.task.NoTask? then Running else s.task)
  }

  /** The waiter ends and cleans up behind itself. */
  function Ended(l: Logins, id: nat, ending: Ending, now: real): Logins
    requires id < |l.table|
  {
    var s := l.table[id];
    Popped(l, id).(table := l.table[id := s.(task := Finished)],
                   results := l.results + [Result(id, ending, now, s.refreshes)])
  }

  function WaiterTurn(l: Logins, id: nat, now: real): Logins
    requires id < |l.table|
  {
    var s := l.table[id];
    if s.task.Cancelling? then Ended(l, id, Cancelled, now)
    else if !s.task.Running? then l
    else if s.answered then Ended(l, id, Answered, now)
    else if s.expiresAt <= now then Ended(l, id, TimedOut, now)
    else l
  }

  function Answer(l: Logins, owner: Owner): Logins
    requires owner.OfSession? ==> owner.id < |l.table|
    requires owner.OfPlain? ==> owner.login in l.plains
  {
    match owner
    case OfSession(id) => l.(table := l.table[id := l.table[id].(answered := true)])
    case OfPlain(login) => l.(plains := l.plains[login := l.plains[login].(answered := true)])
  }

  /** A clear detaches the sessions it drops and cancels their waiters; it does
      not know of plain logins. */
  function Cleared(l: Logins): Logins {
    l.(table := seq(|l.table|, i requires 0 <= i < |l.table| =>
         if InMap(l, i) && l.table[i].task.Running? then l.table[i].(task := Cancelling) else l.table[i]),
       sessions := map[],
       callbacks := map k | k in l.callbacks && !(k in l.sessions && l.callbacks[k] == OfSession(l.sessions[k]))
                        :: l.callbacks[k])
  }

  /** A plain login takes the slot of its key, whoever has it. */
  function PlainStarted(l: Logins, login: nat, key: Key): Logins
    requires Inv(l)
  {
    l.(plains := l.plains[login := Plain(key, false)], callbacks := l.callbacks[key := OfPlain(login)],
       table := if key in l.sessions
                then l.table[l.sessions[key] := l.table[l.sessions[key]].(displaced := true)] else l.table)
  }

  function PlainEnded(l: Logins, login: nat): Logins
    requires login in l.plains
  {
    l.(plains := l.plains - {login}, callbacks := Detached(l.callbacks, l.plains[login].key, OfPlain(login)))
  }

  /** What a step does beside reading the clock; a step that is not enabled has
      no effect. */
  function Act(l: Logins, step: Step): Logins
    requires Inv(l)
  {
    match step
    case Start(command, key, now) => if command in l.commands then l else Started(l, command, key, now)
    case SendFails(command) =>
      if command !in l.commands then l
      else
        var c := l.commands[command];
        (if c.owner then Popped(l, c.session) else l).(commands := l.commands - {command})
    case SendSucceeds(command, now) =>
      if command !in l.commands then l
      else
        var id := l.commands[command].session;
        l.(table := l.table[id := Refreshed(l.table[id], now)], commands := l.commands - {command})
    case SendRaises(command) => l.(commands := l.commands - {command})
    case Reply(key) =>
      if key in l.callbacks then assert CallbackOk(l, key); assert key in l.sessions ==> SessionOk(l, key);
        Answer(l, l.callbacks[key])
      else l
    case WaiterRuns(id, now) => if id < |l.table| then WaiterTurn(l, id, now) else l
    case ClearAll => Cleared(l)
    case PlainStarts(login, key) => if login in l.plains then l else PlainStarted(l, login, key)
    case PlainEnds(login) => if login in l.plains then PlainEnded(l, login) else l
  }

  function ClockAfter(clock: real, step: Step): real {
    match step
    case Start(_, _, now) => now
    case SendSucceeds(_, now) => now
    case WaiterRuns(_, now) => now
    case _ => clock
  }

  function Next(l: Logins, step: Step): Logins
    requires Inv(l)
  {
    Act(l, step).(clock := ClockAfter(l.clock, step))
  }

  // ----- Every step keeps the invariant -----

  lemma PoppedKeeps(l: Logins, id: nat)
    requires Inv(l) && id < |l.table|
    ensures Inv(Popped(l, id))
    ensures var r := Popped(l, id);
            && r == l.(sessions := r.sessions, callbacks := r.callbacks)
            && (forall k :: k in r.sessions <==> k in l.sessions && l.sessions[k] != id)
            && (forall k :: k in r.sessions ==> r.sessions[k] == l.sessions[k])
            && (forall k :: k in r.callbacks <==> k in l.callbacks && l.callbacks[k] != OfSession(id))
            && (forall k :: k in r.callbacks ==> r.callbacks[k] == l.callbacks[k])
  {
    var r := Popped(l, id);
    forall k | k in l.sessions ensures l.sessions[k] == id ==> k == l.table[id].key { assert SessionOk(l, k); }
    forall k | k in l.callbacks ensures l.callbacks[k] == OfSession(id) ==> k == l.table[id].key && InMap(l, id) {
      assert CallbackOk(l, k);
    }
    forall k | k in r.sessions ensures SessionOk(r, k) { assert SessionOk(l, k); }
    forall k | k in r.callbacks ensures CallbackOk(r, k) { assert CallbackOk(l, k); }
  }

  /** Steps that leave maps, keys and marks alone. */
  lemma SameShape(l: Logins, r: Logins)
    requires Inv(l) && r.sessions == l.sessions && r.callbacks == l.callbacks && |r.table| == |l.table|
    requires forall i :: 0 <= i < |l.table| ==>
      r.table[i].key == l.table[i].key && r.table[i].displaced == l.table[i].displaced
    requires forall p :: p in l.plains ==> p in r.plains && r.plains[p].key == l.plains[p].key
    requires forall c :: c in r.commands ==> c in l.commands && r.commands[c] == l.commands[c]
    ensures Inv(r)
  {
    forall k | k in r.sessions ensures SessionOk(r, k) { assert SessionOk(l, k); }
    forall k | k in r.callbacks ensures CallbackOk(r, k) { assert CallbackOk(l, k); }
  }

  lemma OpenedKeepsInv(l: Logins, key: Key, now: real)
    requires Inv(l) && key !in l.sessions
    ensures Inv(Opened(l, key, now))
  {
    var r := Opened(l, key, now);
    forall k | k in r.sessions ensures SessionOk(r, k) {
      if k != key { assert SessionOk(l, k); assert r.table[l.sessions[k]] == l.table[l.sessions[k]]; }
    }
    forall k | k in r.callbacks ensures CallbackOk(r, k) { if k != key { assert CallbackOk(l, k); } }
  }

  lemma DroppedKeeps(l: Logins, key: Key)
    requires Inv(l)
    ensures Inv(Dropped(l, key)) && key !in Dropped(l, key).sessions
    ensures Dropped(l, key).table == l.table && Dropped(l, key).plains == l.plains
    ensures Dropped(l, key).commands == l.commands
  {
    if key in l.sessions {
      assert SessionOk(l, key);
      PoppedKeeps(l, l.sessions[key]);
    }
  }

  /** Dropping a stale session and opening another overwrites its entries. */
  lemma OpeningEffect(l: Logins, command: nat, key: Key, now: real)
    requires Inv(l) && !Reusable(l, key)
    ensures Started(l, command, key, now) ==
            l.(table := l.table + [Session(key, false, now + PENDING_TTL, NoTask, [now], false)],
               sessions := l.sessions[key := |l.table|], callbacks := l.callbacks[key := OfSession(|l.table|)],
               commands := l.commands[command := Sending(|l.table|, true)])
  {
    var d := Dropped(l, key);
    if key in l.sessions { assert SessionOk(l, key); }
    assert d.sessions[key := |l.table|] == l.sessions[key := |l.table|];
    assert d.callbacks[key := OfSession(|l.table|)] == l.callbacks[key := OfSession(|l.table|)];
  }

  lemma StartKeepsInv(l: Logins, command: nat, key: Key, now: real)
    requires Inv(l)
    ensures Inv(Started(l, command, key, now))
  {
    if Reusable(l, key) {
      var r := Started(l, command, key, now);
      assert SessionOk(l, key);
      forall k | k in r.sessions ensures SessionOk(r, k) { assert SessionOk(l, k); }
      forall k | k in r.callbacks ensures CallbackOk(r, k) { assert CallbackOk(l, k); }
    } else {
      hide Inv, Dropped;
      DroppedKeeps(l, key);
      OpenedKeepsInv(Dropped(l, key), key, now);
      RecordingKeepsInv(Opened(Dropped(l, key), key, now), command, Sending(|l.table|, true));
    }
  }

  lemma RecordingKeepsInv(l: Logins, command: nat, c: Sending)
    requires Inv(l) && c.session < |l.table|
    ensures Inv(l.(commands := l.commands[command := c]))
  {
    var r := l.(commands := l.commands[command := c]);
    forall k | k in r.sessions ensures SessionOk(r, k) { assert SessionOk(l, k); }
    forall k | k in r.callbacks ensures CallbackOk(r, k) { assert CallbackOk(l, k); }
  }

  /** A turn of a waiter is idle, or ends it and drops its session. */
  lemma WaiterEffect(l: Logins, id: nat, now: real)
    requires id < |l.table|
    ensures var r := WaiterTurn(l, id, now);
            r == l ||
            (r == Popped(l, id).(table := l.table[id := l.table[id].(task := Finished)], results := r.results) &&
             (l.table[id].task.Running? || l.table[id].task.Cancelling?))
  {}

  lemma WaiterKeepsInv(l: Logins, id: nat, now: real)
    requires Inv(l) && id < |l.table|
    ensures Inv(WaiterTurn(l, id, now))
  {
    hide Inv, Popped, WaiterTurn;
    PoppedKeeps(l, id);
    WaiterEffect(l, id, now);
    var r := WaiterTurn(l, id, now);
    if r != l { SameShape(Popped(l, id), r); }
  }

  lemma PlainStartKeepsInv(l: Logins, login: nat, key: Key)
    requires Inv(l) && login !in l.plains
    ensures Inv(PlainStarted(l, login, key))
  {
    var r := PlainStarted(l, login, key);
    forall k | k in r.sessions ensures SessionOk(r, k) {
      assert SessionOk(l, k);
      if key in l.sessions { assert SessionOk(l, key); }
    }
    forall k | k in r.callbacks ensures CallbackOk(r, k) { if k != key { assert CallbackOk(l, k); } }
  }

  lemma PlainEndKeepsInv(l: Logins, login: nat)
    requires Inv(l) && login in l.plains
    ensures Inv(PlainEnded(l, login))
  {
    var r := PlainEnded(l, login);
    forall k | k in r.sessions ensures SessionOk(r, k) { assert SessionOk(l, k); }
    forall k | k in r.callbacks ensures CallbackOk(r, k) { assert CallbackOk(l, k); }
  }

  /** A clear empties the session map and leaves attached exactly the callbacks
      of plain logins. */
  lemma ClearKeepsInv(l: Logins)
    requires Inv(l)
    ensures Inv(Cleared(l)) && Cleared(l).sessions == map[]
    ensures forall k, owner :: Holds(Cleared(l).callbacks, k, owner) <==> owner.OfPlain? && Holds(l.callbacks, k, owner)
  {
    var r := Cleared(l);
    forall k | k in l.callbacks ensures CallbackOk(l, k) {}
    forall k | k in r.callbacks ensures CallbackOk(r, k) { assert CallbackOk(l, k); }
  }

  lemma ReplyKeepsInv(l: Logins, key: Key)
    requires Inv(l)
    ensures Inv(Act(l, Reply(key)))
  {
    if key in l.callbacks { SameShape(l, Act(l, Reply(key))); }
  }

  lemma SendKeepsInv(l: Logins, step: Step)
    requires Inv(l) && (step.SendFails? || step.SendSucceeds?)
    ensures Inv(Act(l, step))
  {
    if step.command in l.commands {
      var c := l.commands[step.command];
      PoppedKeeps(l, c.session);
      SameShape(if step.SendFails? && c.owner then Popped(l, c.session) else l, Act(l, step));
    }
  }

  /** Each step keeps: one session per key, attached exactly while it is stored
      and no plain login has taken its slot; and a plain login's callback is
      attached only while it is under way. */
  lemma StepKeepsInv(l: Logins, step: Step)
    requires Inv(l)
    ensures Inv(Next(l, step))
  {
    match step {
      case Start(command, key, now) => if command !in l.commands { StartKeepsInv(l, command, key, now); }
      case SendFails(_) => SendKeepsInv(l, step);
      case SendSucceeds(_, _) => SendKeepsInv(l, step);
      case SendRaises(_) => SameShape(l, Act(l, step));
      case Reply(key) => ReplyKeepsInv(l, key);
      case WaiterRuns(id, now) => if id < |l.table| { WaiterKeepsInv(l, id, now); }
      case ClearAll => ClearKeepsInv(l);
      case PlainStarts(login, key) => if login !in l.plains { PlainStartKeepsInv(l, login, key); }
      case PlainEnds(login) => if login in l.plains { PlainEndKeepsInv(l, login); }
    }
    hide Act;
    SameShape(Act(l, step), Next(l, step));
  }

  function Run(l: Logins, steps: seq<Step>): Logins
    requires Inv(l)
    decreases |steps|
  {
    if steps == [] then l
    else StepKeepsInv(l, steps[0]); Run(Next(l, steps[0]), steps[1..])
  }

  /** Over every interleaving. */
  lemma {:induction false} RunKeepsInv(l: Logins, steps: seq<Step>)
    requires Inv(l)
    ensures Inv(Run(l, steps))
    decreases |steps|
  {
    if steps != [] {
      StepKeepsInv(l, steps[0]);
      RunKeepsInv(Next(l, steps[0]), steps[1..]);
    }
  }

  /** A waiter that ends leaves every other session where it is, a newer one
      for its own key included, and every plain login attached. */
  lemma OldWaiterKeepsNewer(l: Logins, id: nat, now: real, key: Key, owner: Owner)
    requires Inv(l)
    ensures var r := Next(l, WaiterRuns(id, now));
            && (key in l.sessions && l.sessions[key] != id ==>
                  key in r.sessions && r.sessions[key] == l.sessions[key])
            && (owner != OfSession(id) && Holds(l.callbacks, key, owner) ==> Holds(r.callbacks, key, owner))
  {
    if id < |l.table| {
      PoppedKeeps(l, id);
      WaiterEffect(l, id, now);
      hide Popped, Inv, WaiterTurn;
    }
  }

  // ----- Timeouts are never early -----

  /** Every deadline the session was ever given has been kept. */
  predicate Dated(s: Session, clock: real) {
    forall t <- s.refreshes :: t <= clock && t + PENDING_TTL <= s.expiresAt
  }

  predicate NotEarly(r: Result) {
    r.ending.TimedOut? ==> forall t <- r.refreshes :: t + 120.0 <= r.at
  }

  /** No waiter has timed out before a deadline its session had been given. */
  predicate Deadlines(l: Logins) {
    && (forall i :: 0 <= i < |l.table| ==> Dated(l.table[i], l.clock))
    && (forall i :: 0 <= i < |l.results| ==> NotEarly(l.results[i]))
  }

  /** Clock readings do not decrease. */
  predicate Timely(clock: real, steps: seq<Step>)
    decreases |steps|
  {
    steps == [] ||
    (clock <= ClockAfter(clock, steps[0]) && Timely(ClockAfter(clock, steps[0]), steps[1..]))
  }

  /** What a step does to a session that exists, and the results it adds. */
  lemma SessionEffect(l: Logins, step: Step, i: nat)
    requires Inv(l) && i < |l.table|
    ensures var r, s := Act(l, step), l.table[i];
            && i < |r.table| && r.table[i].key == s.key
            && ((r.table[i].refreshes == s.refreshes && r.table[i].expiresAt == s.expiresAt) ||
                (step.SendSucceeds? && r.table[i].refreshes == s.refreshes + [step.now] &&
                 r.table[i].expiresAt == step.now + PENDING_TTL))
  {
    hide WaiterTurn, Started;
    if step.Start? {
      StartKeepsTable(l, step.command, step.key, step.now, i);
    } else if step.WaiterRuns? && step.session < |l.table| {
      WaiterEffect(l, step.session, step.now);
    }
  }

  lemma StartKeepsTable(l: Logins, command: nat, key: Key, now: real, i: nat)
    requires Inv(l) && i < |l.table|
    ensures var r := Started(l, command, key, now); i < |r.table| && r.table[i] == l.table[i]
  {
    if !Reusable(l, key) {
      OpeningEffect(l, command, key, now);
      hide Started;
    }
  }

  lemma ResultsEffect(l: Logins, step: Step)
    requires Inv(l) && Deadlines(l)
    ensures forall i :: 0 <= i < |Act(l, step).results| ==> NotEarly(Act(l, step).results[i])
  {
    hide Inv, Started, Cleared, Popped;
    if step.WaiterRuns? && step.session < |l.table| { assert Dated(l.table[step.session], l.clock); }
    PopKeepsResults(l, step);
  }

  lemma PopKeepsResults(l: Logins, step: Step)
    requires Inv(l)
    ensures step.WaiterRuns? && step.session < |l.table| ==> Popped(l, step.session).results == l.results
    ensures !step.WaiterRuns? ==> Act(l, step).results == l.results
  {}

  lemma StepKeepsDeadlines(l: Logins, step: Step)
    requires Inv(l) && Deadlines(l) && l.clock <= ClockAfter(l.clock, step)
    ensures Deadlines(Next(l, step))
  {
    hide Act, Inv;
    var r := Next(l, step);
    ResultsEffect(l, step);
    NewSessionDated(l, step);
    forall i | 0 <= i < |r.table| ensures Dated(r.table[i], r.clock) {
      if i < |l.table| {
        assert Dated(l.table[i], l.clock);
        SessionEffect(l, step, i);
      }
    }
  }

  lemma NewSessionDated(l: Logins, step: Step)
    requires Inv(l)
    ensures var r := Act(l, step).table;
            forall i :: |l.table| <= i < |r| ==> Dated(r[i], ClockAfter(l.clock, step))
  {
    if step.Start? { DroppedKeeps(l, step.key); }
  }

  /** Over every interleaving under a clock that does not go back, a waiter that
      timed out did so no earlier than any deadline its session had been given. */
  lemma {:induction false} TimeoutsAreDue(l: Logins, steps: seq<Step>)
    requires Inv(l) && Deadlines(l) && Timely(l.clock, steps)
    ensures Deadlines(Run(l, steps))
    decreases |steps|
  {
    hide Act, Deadlines;
    if steps != [] {
      StepKeepsInv(l, steps[0]);
      StepKeepsDeadlines(l, steps[0]);
      TimeoutsAreDue(Next(l, steps[0]), steps[1..]);
    }
  }

  // ----- Timeouts come when they are due -----

  /** The deadline in force is the one of the latest refresh. */
  predicate DatedByLatest(s: Session) {
    s.refreshes != [] && s.expiresAt == s.refreshes[|s.refreshes| - 1] + 120.0
  }

  predicate LatestDates(l: Logins) {
    forall i :: 0 <= i < |l.table| ==> DatedByLatest(l.table[i])
  }

  lemma StepKeepsLatestDates(l: Logins, step: Step)
    requires Inv(l) && LatestDates(l)
    ensures LatestDates(Next(l, step))
  {
    var r := Next(l, step);
    NewSessionOpened(l, step);
    hide Act, Inv;
    forall i | 0 <= i < |r.table| ensures DatedByLatest(r.table[i]) {
      if i < |l.table| {
        assert DatedByLatest(l.table[i]);
        SessionEffect(l, step, i);
      }
    }
  }

  lemma NewSessionOpened(l: Logins, step: Step)
    requires Inv(l)
    ensures var r := Act(l, step).table; forall i :: |l.table| <= i < |r| ==> DatedByLatest(r[i])
  {
    if step.Start? { DroppedKeeps(l, step.key); }
  }

  lemma {:induction false} RunKeepsLatestDates(l: Logins, steps: seq<Step>)
    requires Inv(l) && LatestDates(l)
    ensures Inv(Run(l, steps)) && LatestDates(Run(l, steps))
    decreases |steps|
  {
    hide Act, Inv, LatestDates;
    if steps != [] {
      StepKeepsInv(l, steps[0]);
      StepKeepsLatestDates(l, steps[0]);
      RunKeepsLatestDates(Next(l, steps[0]), steps[1..]);
    }
  }

  /** In every run a waiter without an answer that gets its turn ends with a
      timeout, and its session is dropped, exactly when 120 seconds have passed
      since its latest refresh; before that the turn changes nothing. */
  lemma WaiterTimesOutIff(steps: seq<Step>, id: nat, now: real)
    requires id < |Run(START, steps).table|
    requires Run(START, steps).table[id].task.Running? && !Run(START, steps).table[id].answered
    ensures Inv(Run(START, steps))
    ensures var l := Run(START, steps);
            var r, seen := Next(l, WaiterRuns(id, now)), l.table[id].refreshes;
            && seen != []
            && if now >= seen[|seen| - 1] + 120.0 then
                 && r.results == l.results + [Result(id, TimedOut, now, seen)]
                 && r.table[id].task.Finished? && !InMap(r, id) && !Attached(r, id)
               else r == l.(clock := now)
  {
    assert Inv(START);
    hide Run, Inv;
    RunKeepsLatestDates(START, steps);
    var l := Run(START, steps);
    assert DatedByLatest(l.table[id]);
    PoppedKeeps(l, id);
  }

  /** A waiter that was cancelled ends with its next turn, whatever came for it
      in between. */
  lemma CancelledWaiterEnds(l: Logins, id: nat, now: real)
    requires Inv(l) && id < |l.table| && l.table[id].task.Cancelling?
    ensures var r := Next(l, WaiterRuns(id, now));
            && r.results == l.results + [Result(id, Cancelled, now, l.table[id].refreshes)]
            && r.table[id].task.Finished? && !InMap(r, id)
  {
    PoppedKeeps(l, id);
    hide Inv;
  }

  // ----- Whoever waits can be answered -----

  predicate Waits(s: Session) { s.task.Running? && !s.answered }

  /** A reply for its key would reach every session and every plain login that
      still waits for one. */
  predicate Reachable(l: Logins) {
    && (forall i :: 0 <= i < |l.table| && Waits(l.table[i]) ==> Attached(l, i))
    && (forall p :: p in l.plains && !l.plains[p].answered ==> Holds(l.callbacks, l.plains[p].key, OfPlain(p)))
  }

  /** The owner of the slot still waits. */
  predicate SlotAwaited(l: Logins, key: Key)
    requires Inv(l)
  {
    key in l.callbacks &&
    match l.callbacks[key]
    case OfSession(id) => assert CallbackOk(l, key) && SessionOk(l, key); Waits(l.table[id])
    case OfPlain(p) => assert CallbackOk(l, key); !l.plains[p].answered
  }

  /** The steps that leave a login nobody can answer: the owner's failed send
      drops a session that another command has set waiting; a first successful
      send sets a session waiting that has lost its slot; a plain login, or a new
      session, takes a slot whose owner still waits. */
  predicate Orphans(l: Logins, step: Step)
    requires Inv(l)
  {
    match step
    case SendFails(command) =>
      command in l.commands && l.commands[command].owner && Waits(l.table[l.commands[command].session])
    case SendSucceeds(command, _) =>
      command in l.commands &&
      var id := l.commands[command].session;
      l.table[id].task.NoTask? && !l.table[id].answered && !Attached(l, id)
    case PlainStarts(login, key) => login !in l.plains && SlotAwaited(l, key)
    case Start(command, key, _) => command !in l.commands && !Reusable(l, key) && SlotAwaited(l, key)
    case _ => false
  }

  lemma StartReachable(l: Logins, command: nat, key: Key, now: real)
    requires Inv(l) && Reachable(l) && command !in l.commands
    ensures Reachable(Started(l, command, key, now)) <==> !Orphans(l, Start(command, key, now))
  {
    var r := Started(l, command, key, now);
    if Reusable(l, key) {
      assert forall i :: 0 <= i < |l.table| ==> Attached(r, i) == Attached(l, i);
    } else {
      OpeningEffect(l, command, key, now);
      if key in l.callbacks { assert CallbackOk(l, key); }
      hide Started, Inv;
      if SlotAwaited(l, key) {
        assert l.callbacks[key].OfPlain? && !Holds(r.callbacks, key, l.callbacks[key]);
      } else {
        forall i | 0 <= i < |r.table| && Waits(r.table[i]) ensures Attached(r, i) {
          assert r.table[i] == l.table[i] && Attached(l, i);
        }
      }
    }
  }

  lemma FailReachable(l: Logins, command: nat)
    requires Inv(l) && Reachable(l) && command in l.commands
    ensures Reachable(Act(l, SendFails(command))) <==> !Orphans(l, SendFails(command))
  {
    var r, id := Act(l, SendFails(command)), l.commands[command].session;
    if l.commands[command].owner {
      PoppedKeeps(l, id);
      hide Popped, Inv;
      if Waits(l.table[id]) {
        assert !Attached(r, id);
      } else {
        forall i | 0 <= i < |r.table| && Waits(r.table[i]) ensures Attached(r, i) { assert Attached(l, i); }
      }
    } else {
      assert forall i :: 0 <= i < |l.table| ==> Attached(r, i) == Attached(l, i);
      assert Orphans(l, SendFails(command)) == false;
    }
  }

  lemma SucceedReachable(l: Logins, command: nat, now: real)
    requires Inv(l) && Reachable(l) && command in l.commands
    ensures Reachable(Act(l, SendSucceeds(command, now))) <==> !Orphans(l, SendSucceeds(command, now))
  {
    var r, id := Act(l, SendSucceeds(command, now)), l.commands[command].session;
    assert forall i :: 0 <= i < |l.table| ==> Attached(r, i) == Attached(l, i);
    if Orphans(l, SendSucceeds(command, now)) { assert Waits(r.table[id]) && !Attached(r, id); }
  }

  lemma RaiseReachable(l: Logins, command: nat)
    requires Inv(l) && Reachable(l)
    ensures Reachable(Act(l, SendRaises(command)))
  {
    var r := Act(l, SendRaises(command));
    assert forall i :: 0 <= i < |l.table| ==> Attached(r, i) == Attached(l, i);
  }

  lemma ReplyReachable(l: Logins, key: Key)
    requires Inv(l) && Reachable(l)
    ensures Reachable(Act(l, Reply(key)))
  {
    var r := Act(l, Reply(key));
    forall i | 0 <= i < |r.table| && Waits(r.table[i]) ensures Attached(r, i) { assert Attached(l, i); }
  }

  lemma WaiterReachable(l: Logins, id: nat, now: real)
    requires Inv(l) && Reachable(l) && id < |l.table|
    ensures Reachable(WaiterTurn(l, id, now))
  {
    PoppedKeeps(l, id);
    WaiterEffect(l, id, now);
    hide Popped, Inv, WaiterTurn;
    var r := WaiterTurn(l, id, now);
    forall i | 0 <= i < |r.table| && Waits(r.table[i]) ensures Attached(r, i) { assert Attached(l, i); }
  }

  lemma ClearReachable(l: Logins)
    requires Inv(l) && Reachable(l)
    ensures Reachable(Cleared(l))
  {
    ClearKeepsInv(l);
    var r := Cleared(l);
    forall i | 0 <= i < |l.table| && Waits(l.table[i]) ensures InMap(l, i) {
      assert Attached(l, i) && CallbackOk(l, l.table[i].key);
    }
    assert forall i :: 0 <= i < |r.table| ==> !Waits(r.table[i]);
  }

  lemma PlainStartReachable(l: Logins, login: nat, key: Key)
    requires Inv(l) && Reachable(l) && login !in l.plains
    ensures Reachable(PlainStarted(l, login, key)) <==> !SlotAwaited(l, key)
  {
    var r := PlainStarted(l, login, key);
    if key in l.sessions { assert SessionOk(l, key); }
    if key in l.callbacks { assert CallbackOk(l, key); }
    assert forall i :: 0 <= i < |l.table| ==>
      Waits(r.table[i]) == Waits(l.table[i]) && r.table[i].key == l.table[i].key;
    if SlotAwaited(l, key) {
      match l.callbacks[key]
      case OfSession(id) => assert Waits(r.table[id]) && !Attached(r, id);
      case OfPlain(p) => assert !r.plains[p].answered;
    } else {
      forall i | 0 <= i < |r.table| && Waits(r.table[i]) ensures Attached(r, i) { assert Attached(l, i); }
    }
  }

  lemma PlainEndReachable(l: Logins, login: nat)
    requires Inv(l) && Reachable(l) && login in l.plains
    ensures Reachable(PlainEnded(l, login))
  {
    var r := PlainEnded(l, login);
    forall i | 0 <= i < |r.table| && Waits(r.table[i]) ensures Attached(r, i) { assert Attached(l, i); }
  }

  lemma ClockIsIdle(l: Logins, clock: real)
    ensures Reachable(l.(clock := clock)) == Reachable(l)
  {
    assert forall i :: 0 <= i < |l.table| ==> Attached(l.(clock := clock), i) == Attached(l, i);
  }

  /** From a state where everyone can be answered, exactly the orphaning steps
      leave such states. */
  lemma StepKeepsReachableIff(l: Logins, step: Step)
    requires Inv(l) && Reachable(l)
    ensures Reachable(Next(l, step)) <==> !Orphans(l, step)
  {
    ClockIsIdle(Act(l, step), ClockAfter(l.clock, step));
    hide Inv, Reachable, Started, WaiterTurn, Cleared, PlainStarted, PlainEnded, SlotAwaited;
    match step
    case Start(command, key, now) => if command !in l.commands { StartReachable(l, command, key, now); }
    case SendFails(command) => if command in l.commands { FailReachable(l, command); }
    case SendSucceeds(command, now) => if command in l.commands { SucceedReachable(l, command, now); }
    case SendRaises(command) => RaiseReachable(l, command);
    case Reply(key) => ReplyReachable(l, key);
    case WaiterRuns(id, now) => if id < |l.table| { WaiterReachable(l, id, now); }
    case ClearAll => ClearReachable(l);
    case PlainStarts(login, key) => if login !in l.plains { PlainStartReachable(l, login, key); }
    case PlainEnds(login) => if login in l.plains { PlainEndReachable(l, login); }
  }

  predicate NeverOrphans(l: Logins, steps: seq<Step>)
    requires Inv(l)
    decreases |steps|
  {
    steps == [] ||
    (!Orphans(l, steps[0]) && (StepKeepsInv(l, steps[0]); NeverOrphans(Next(l, steps[0]), steps[1..])))
  }

  lemma RunFirst(l: Logins, steps: seq<Step>, n: nat)
    requires Inv(l) && n < |steps| && Inv(Next(l, steps[0]))
    ensures Run(l, steps[..n + 1]) == Run(Next(l, steps[0]), steps[1..][..n])
  {
    assert steps[..n + 1][0] == steps[0] && steps[..n + 1][1..] == steps[1..][..n];
  }

  /** Over every run: everyone who waits can be answered after every prefix
      exactly when no step orphans. */
  lemma {:induction false} ReachableIffNeverOrphans(l: Logins, steps: seq<Step>)
    requires Inv(l) && Reachable(l)
    ensures (forall n :: 0 <= n <= |steps| ==> Reachable(Run(l, steps[..n]))) <==> NeverOrphans(l, steps)
    decreases |steps|
  {
    hide Inv, Act, Orphans, Reachable;
    if steps == [] { return; }
    StepKeepsInv(l, steps[0]);
    StepKeepsReachableIff(l, steps[0]);
    var m, rest := Next(l, steps[0]), steps[1..];
    forall n | 0 <= n <= |rest| ensures Run(l, steps[..n + 1]) == Run(m, rest[..n]) { RunFirst(l, steps, n); }
    if Orphans(l, steps[0]) {
      assert Run(l, steps[..0 + 1]) == Run(m, rest[..0]) == m;
      return;
    }
    ReachableIffNeverOrphans(m, rest);
    if forall n :: 0 <= n <= |steps| ==> Reachable(Run(l, steps[..n])) {
      forall n | 0 <= n <= |rest| ensures Reachable(Run(m, rest[..n])) { assert Reachable(Run(l, steps[..n + 1])); }
    }
    if NeverOrphans(m, rest) {
      forall n | 0 <= n <= |steps| ensures Reachable(Run(l, steps[..n])) {
        if n > 0 { assert Reachable(Run(m, rest[..n - 1])) && steps[..(n - 1) + 1] == steps[..n]; }
      }
    }
  }

  // ----- What being reachable, or not, means -----

  /** A reply for the key of a reachable waiter makes it return with the answer
      whenever it next runs. */
  lemma ReplyCompletes(l: Logins, id: nat, now: real)
    requires Inv(l) && Reachable(l) && id < |l.table| && Waits(l.table[id])
    ensures var r := Next(l, Reply(l.table[id].key));
            Inv(r) && Next(r, WaiterRuns(id, now)).results ==
            l.results + [Result(id, Answered, now, l.table[id].refreshes)]
  {
    StepKeepsInv(l, Reply(l.table[id].key));
    assert Attached(l, id);
    hide Inv;
  }

  /** In such a state a reply also answers a plain login that waits for its key. */
  lemma PlainLoginIsAnswered(l: Logins, login: nat)
    requires Inv(l) && Reachable(l) && login in l.plains && !l.plains[login].answered
    ensures var r := Next(l, Reply(l.plains[login].key));
            login in r.plains && r.plains[login].answered && r.table == l.table && r.sessions == l.sessions
  {
    assert Holds(l.callbacks, l.plains[login].key, OfPlain(login));
    hide Inv;
  }

  /** A command whose transmission raises leaves its session stored; the next
      command for the key joins it. */
  lemma RaisedSendIsJoined(l: Logins, command: nat, other: nat, now: real)
    requires Inv(l) && command in l.commands && other !in l.commands
    requires InMap(l, l.commands[command].session) && !Stale(l.table[l.commands[command].session])
    ensures Inv(Next(l, SendRaises(command)))
    ensures var id := l.commands[command].session;
            Next(Next(l, SendRaises(command)), Start(other, l.table[id].key, now)).commands ==
            (l.commands - {command})[other := Sending(id, false)]
  {
    StepKeepsInv(l, SendRaises(command));
    assert SessionOk(l, l.table[l.commands[command].session].key);
    hide Inv;
  }

  /** A session that has lost its slot never gets it back: whatever happens, no
      reply reaches its waiter, which can only time out or be cancelled. */
  lemma {:induction false} LostSlotStaysLost(l: Logins, id: nat, steps: seq<Step>)
    requires Inv(l) && id < |l.table| && !Attached(l, id) && !l.table[id].answered
    ensures var r := Run(l, steps); id < |r.table| && !Attached(r, id) && !r.table[id].answered
    decreases |steps|
  {
    hide Inv, Act;
    if steps != [] {
      StepKeepsInv(l, steps[0]);
      LostSlotStep(l, id, steps[0]);
      LostSlotStaysLost(Next(l, steps[0]), id, steps[1..]);
    }
  }

  lemma LostSlotStart(l: Logins, id: nat, command: nat, key: Key, now: real)
    requires Inv(l) && id < |l.table| && !Attached(l, id)
    ensures var r := Started(l, command, key, now);
            id < |r.table| && !Attached(r, id) && r.table[id] == l.table[id]
  {
    if !Reusable(l, key) {
      OpeningEffect(l, command, key, now);
      hide Started, Inv;
    }
  }

  lemma LostSlotStep(l: Logins, id: nat, step: Step)
    requires Inv(l) && id < |l.table| && !Attached(l, id) && !l.table[id].answered
    ensures var r := Next(l, step); id < |r.table| && !Attached(r, id) && !r.table[id].answered
  {
    if step.Reply? { OwnerIsAttached(l, step.key, id); }
    hide Started, WaiterTurn, Inv;
    if step.Start? { LostSlotStart(l, id, step.command, step.key, step.now); }
    if step.WaiterRuns? && step.session < |l.table| { WaiterEffect(l, step.session, step.now); }
  }

  lemma OwnerIsAttached(l: Logins, key: Key, id: nat)
    requires Inv(l)
    ensures Holds(l.callbacks, key, OfSession(id)) ==> id < |l.table| && Attached(l, id)
  {
    if key in l.callbacks {
      assert CallbackOk(l, key);
      if key in l.sessions { assert SessionOk(l, key); }
    }
  }

  // ----- A discipline for callers -----

  /** A first send is unresolved. */
  predicate FirstSendOpen(s: Session) { s.task.NoTask? && !s.answered }

  /** What a caller can see to: no command joins, and nothing clears, a session
      whose owner's first send is unresolved; no plain login starts for a key
      whose slot is taken, and no command while a plain login has it. */
  predicate Disciplined(l: Logins, step: Step)
    requires Inv(l)
  {
    match step
    case Start(_, key, _) =>
      && (key in l.sessions ==> assert SessionOk(l, key); !FirstSendOpen(l.table[l.sessions[key]]))
      && (key in l.callbacks ==> l.callbacks[key].OfSession?)
    case PlainStarts(_, key) => key !in l.callbacks
    case ClearAll => forall i :: 0 <= i < |l.table| && InMap(l, i) ==> !FirstSendOpen(l.table[i])
    case _ => true
  }

  /** Only owners wait on sessions without a waiter, and such a session has its
      slot or its answer. */
  predicate CommandOk(l: Logins, c: Sending)
    requires c.session < |l.table|
  {
    var s := l.table[c.session];
    if c.owner then s.task.NoTask? && (s.answered || Attached(l, c.session)) else !s.task.NoTask?
  }

  /** ... and a session has at most one owning command. */
  predicate CommandsOk(l: Logins)
    requires Inv(l)
  {
    && (forall c :: c in l.commands ==> CommandOk(l, l.commands[c]))
    && (forall c, d :: c in l.commands && d in l.commands && c != d && l.commands[c].owner && l.commands[d].owner ==>
          l.commands[c].session != l.commands[d].session)
  }

  lemma DisciplineAvoidsOrphans(l: Logins, step: Step)
    requires Inv(l) && CommandsOk(l) && Disciplined(l, step)
    ensures !Orphans(l, step)
  {
    if step.Start? && step.key in l.callbacks { assert CallbackOk(l, step.key); }
    if (step.SendFails? || step.SendSucceeds?) && step.command in l.commands {
      assert CommandOk(l, l.commands[step.command]);
    }
  }

  /** Opening a session for a key leaves the other commands as they should be. */
  lemma OpeningCommandOk(l: Logins, r: Logins, key: Key, c: Sending)
    requires Inv(l) && !Reusable(l, key) && c.session < |l.table| && CommandOk(l, c)
    requires |l.table| <= |r.table| && r.table[c.session] == l.table[c.session]
    requires r.callbacks == l.callbacks[key := OfSession(|l.table|)]
    ensures CommandOk(r, c)
  {
    if Attached(l, c.session) { assert CallbackOk(l, l.table[c.session].key); }
  }

  lemma OpeningKeepsCommands(l: Logins, r: Logins, command: nat, key: Key)
    requires Inv(l) && Inv(r) && CommandsOk(l) && !Reusable(l, key) && command !in l.commands
    requires |r.table| == |l.table| + 1 && r.table[..|l.table|] == l.table
    requires r.table[|l.table|].key == key && r.table[|l.table|].task.NoTask?
    requires r.callbacks == l.callbacks[key := OfSession(|l.table|)]
    requires r.commands == l.commands[command := Sending(|l.table|, true)]
    ensures CommandsOk(r)
  {
    hide Reusable;
    forall c | c in r.commands ensures CommandOk(r, r.commands[c]) {
      if c != command {
        assert r.table[l.commands[c].session] == r.table[..|l.table|][l.commands[c].session];
        OpeningCommandOk(l, r, key, l.commands[c]);
      }
    }
  }

  lemma StartCommandsOk(l: Logins, command: nat, key: Key, now: real)
    requires Inv(l) && CommandsOk(l) && Disciplined(l, Start(command, key, now)) && command !in l.commands
    requires Inv(Started(l, command, key, now))
    ensures CommandsOk(Started(l, command, key, now))
  {
    var r := Started(l, command, key, now);
    if Reusable(l, key) {
      forall c | c in r.commands && c != command ensures CommandOk(r, r.commands[c]) {
        assert CommandOk(l, l.commands[c]);
      }
    } else {
      OpeningEffect(l, command, key, now);
      hide Started, Inv;
      OpeningKeepsCommands(l, r, command, key);
    }
  }

  lemma SendCommandsOk(l: Logins, step: Step)
    requires Inv(l) && CommandsOk(l) && (step.SendFails? || step.SendSucceeds?) && Inv(Act(l, step))
    ensures CommandsOk(Act(l, step))
  {
    var r := Act(l, step);
    if step.command in l.commands {
      PoppedKeeps(l, l.commands[step.command].session);
      hide Popped, Inv;
      assert CommandOk(l, l.commands[step.command]);
      forall c | c in r.commands ensures CommandOk(r, r.commands[c]) { assert CommandOk(l, l.commands[c]); }
    }
  }

  lemma RaiseCommandsOk(l: Logins, command: nat)
    requires Inv(l) && CommandsOk(l) && Inv(Act(l, SendRaises(command)))
    ensures CommandsOk(Act(l, SendRaises(command)))
  {
    var r := Act(l, SendRaises(command));
    forall c | c in r.commands ensures CommandOk(r, r.commands[c]) { assert CommandOk(l, l.commands[c]); }
  }

  lemma ReplyCommandsOk(l: Logins, key: Key)
    requires Inv(l) && CommandsOk(l) && Inv(Act(l, Reply(key)))
    ensures CommandsOk(Act(l, Reply(key)))
  {
    var r := Act(l, Reply(key));
    forall c | c in r.commands ensures CommandOk(r, r.commands[c]) { assert CommandOk(l, l.commands[c]); }
  }

  lemma WaiterCommandsOk(l: Logins, id: nat, now: real)
    requires Inv(l) && CommandsOk(l) && id < |l.table| && Inv(WaiterTurn(l, id, now))
    ensures CommandsOk(WaiterTurn(l, id, now))
  {
    PoppedKeeps(l, id);
    WaiterEffect(l, id, now);
    hide Popped, Inv, WaiterTurn;
    var r := WaiterTurn(l, id, now);
    forall c | c in r.commands ensures CommandOk(r, r.commands[c]) { assert CommandOk(l, l.commands[c]); }
  }

  lemma ClearCommandsOk(l: Logins)
    requires Inv(l) && CommandsOk(l) && Disciplined(l, ClearAll) && Inv(Cleared(l))
    ensures CommandsOk(Cleared(l))
  {
    var r := Cleared(l);
    forall c | c in r.commands ensures CommandOk(r, r.commands[c]) {
      var id := l.commands[c].session;
      assert CommandOk(l, l.commands[c]);
      if Attached(l, id) { assert CallbackOk(l, l.table[id].key) && InMap(l, id); }
    }
  }

  lemma PlainCommandsOk(l: Logins, step: Step)
    requires Inv(l) && CommandsOk(l) && Disciplined(l, step) && (step.PlainStarts? || step.PlainEnds?)
    requires Inv(Act(l, step))
    ensures CommandsOk(Act(l, step))
  {
    var r := Act(l, step);
    forall c | c in r.commands ensures CommandOk(r, r.commands[c]) { assert CommandOk(l, l.commands[c]); }
  }

  lemma StepKeepsCommandsOk(l: Logins, step: Step)
    requires Inv(l) && Inv(Act(l, step)) && Inv(Next(l, step)) && CommandsOk(l) && Disciplined(l, step)
    ensures CommandsOk(Next(l, step))
  {
    match step {
      case Start(command, key, now) => if command !in l.commands { StartCommandsOk(l, command, key, now); }
      case SendFails(_) => SendCommandsOk(l, step);
      case SendSucceeds(_, _) => SendCommandsOk(l, step);
      case SendRaises(command) => RaiseCommandsOk(l, command);
      case Reply(key) => ReplyCommandsOk(l, key);
      case WaiterRuns(id, now) => if id < |l.table| { WaiterCommandsOk(l, id, now); }
      case ClearAll => ClearCommandsOk(l);
      case PlainStarts(_, _) => PlainCommandsOk(l, step);
      case PlainEnds(_) => PlainCommandsOk(l, step);
    }
    hide Act, Inv;
    var a, r := Act(l, step), Next(l, step);
    forall c | c in r.commands ensures CommandOk(r, r.commands[c]) { assert CommandOk(a, a.commands[c]); }
  }

  lemma ActKeepsInv(l: Logins, step: Step)
    requires Inv(l)
    ensures Inv(Act(l, step))
  {
    StepKeepsInv(l, step);
    hide Act;
    SameShape(Next(l, step), Act(l, step));
  }

  predicate AllDisciplined(l: Logins, steps: seq<Step>)
    requires Inv(l)
    decreases |steps|
  {
    steps == [] ||
    (Disciplined(l, steps[0]) && (StepKeepsInv(l, steps[0]); AllDisciplined(Next(l, steps[0]), steps[1..])))
  }

  /** Disciplined callers never orphan, so in every run of theirs everyone who
      waits can be answered. */
  lemma {:induction false} DisciplinedNeverOrphans(l: Logins, steps: seq<Step>)
    requires Inv(l) && CommandsOk(l) && AllDisciplined(l, steps)
    ensures NeverOrphans(l, steps)
    decreases |steps|
  {
    if steps != [] {
      StepKeepsInv(l, steps[0]);
      ActKeepsInv(l, steps[0]);
      DisciplineAvoidsOrphans(l, steps[0]);
      StepKeepsCommandsOk(l, steps[0]);
      hide Inv, Act, Orphans, Disciplined;
      DisciplinedNeverOrphans(Next(l, steps[0]), steps[1..]);
    }
  }

  lemma DisciplinedRunsStayReachable(steps: seq<Step>)
    requires AllDisciplined(START, steps)
    ensures forall n :: 0 <= n <= |steps| ==> Reachable(Run(START, steps[..n]))
  {
    DisciplinedNeverOrphans(START, steps);
    ReachableIffNeverOrphans(START, steps);
  }

  // ----- Runs that orphan -----

  lemma Unfold4(l: Logins, a: Step, b: Step, c: Step, d: Step)
    requires Inv(l) && Inv(Next(l, a)) && Inv(Next(Next(l, a), b)) && Inv(Next(Next(Next(l, a), b), c))
    ensures Run(l, [a, b, c, d]) == Next(Next(Next(Next(l, a), b), c), d)
  {
    hide Act, Inv;
    var k, j, i := Next(l, a), Next(Next(l, a), b), Next(Next(Next(l, a), b), c);
    StepKeepsInv(i, d);
    assert [a, b, c, d][1..] == [b, c, d] && [b, c, d][1..] == [c, d] && [c, d][1..] == [d] && [d][1..] == [];
    assert Run(i, [d]) == Next(i, d) && Run(j, [c, d]) == Run(i, [d]) && Run(k, [b, c, d]) == Run(j, [c, d]);
  }

  /** The state behind a first command. */
  function FirstOpen(key: Key): Logins {
    Logins([Session(key, false, PENDING_TTL, NoTask, [0.0], false)], map[key := 0], map[key := OfSession(0)], map[],
           map[0 := Sending(0, true)], 0.0, [])
  }

  lemma FirstStart(key: Key)
    ensures Inv(FirstOpen(key)) && Next(START, Start(0, key, 0.0)) == FirstOpen(key)
  {
    OpeningEffect(START, 0, key, 0.0);
    StepKeepsInv(START, Start(0, key, 0.0));
  }

  /** A command joins before the owner's send fails. */
  lemma JoinOrphans(key: Key)
    ensures !Reachable(Run(START, [Start(0, key, 0.0), Start(1, key, 0.0), SendSucceeds(1, 0.0), SendFails(0)]))
  {
    FirstStart(key);
    var a := FirstOpen(key);
    var b := Next(a, Start(1, key, 0.0));
    assert b == a.(commands := map[0 := Sending(0, true), 1 := Sending(0, false)]);
    StepKeepsInv(a, Start(1, key, 0.0));
    var c := Next(b, SendSucceeds(1, 0.0));
    assert c == b.(table := [Refreshed(a.table[0], 0.0)], commands := map[0 := Sending(0, true)]);
    StepKeepsInv(b, SendSucceeds(1, 0.0));
    Unfold4(START, Start(0, key, 0.0), Start(1, key, 0.0), SendSucceeds(1, 0.0), SendFails(0));
    var d := Next(c, SendFails(0));
    assert Waits(d.table[0]) && !Attached(d, 0);
  }

  /** A clear comes before the first send succeeds. */
  lemma ClearOrphans(key: Key)
    ensures !Reachable(Run(START, [Start(0, key, 0.0), ClearAll, SendSucceeds(0, 0.0), Reply(key)]))
  {
    FirstStart(key);
    var a := FirstOpen(key);
    var b := Next(a, ClearAll);
    ClearedFirst(key);
    assert b == a.(sessions := map[], callbacks := map[]);
    StepKeepsInv(a, ClearAll);
    var c := Next(b, SendSucceeds(0, 0.0));
    assert c == b.(table := [Refreshed(a.table[0], 0.0)], commands := map[]);
    StepKeepsInv(b, SendSucceeds(0, 0.0));
    Unfold4(START, Start(0, key, 0.0), ClearAll, SendSucceeds(0, 0.0), Reply(key));
    assert Next(c, Reply(key)) == c && Waits(c.table[0]) && !Attached(c, 0);
  }

  lemma ClearedFirst(key: Key)
    ensures Cleared(FirstOpen(key)) == FirstOpen(key).(sessions := map[], callbacks := map[])
  {
    assert Cleared(FirstOpen(key)).table == FirstOpen(key).table;
  }

  /** In any state, a plain login takes the slot of a session waiting for the
      same key, which stays stored and unreachable after the plain login. */
  lemma SlotTaken(l: Logins, id: nat, login: nat)
    requires Inv(l) && id < |l.table| && Waits(l.table[id]) && Attached(l, id) && login !in l.plains
    ensures var key := l.table[id].key;
            var m := Next(l, PlainStarts(login, key));
            Inv(m) && var r := Next(m, PlainEnds(login));
            !Reachable(r) && key in r.sessions && key !in r.callbacks
  {
    var key := l.table[id].key;
    assert CallbackOk(l, key) && SessionOk(l, key);
    StepKeepsInv(l, PlainStarts(login, key));
    hide Inv;
    var r := Next(Next(l, PlainStarts(login, key)), PlainEnds(login));
    assert Waits(r.table[id]) && !Attached(r, id);
  }

  lemma PlainLoginOrphans(key: Key)
    ensures var r := Run(START, [Start(0, key, 0.0), SendSucceeds(0, 0.0), PlainStarts(0, key), PlainEnds(0)]);
            !Reachable(r) && key in r.sessions && key !in r.callbacks
  {
    FirstStart(key);
    var a := FirstOpen(key);
    var b := Next(a, SendSucceeds(0, 0.0));
    assert b == a.(table := [Refreshed(a.table[0], 0.0)], commands := map[]);
    StepKeepsInv(a, SendSucceeds(0, 0.0));
    hide Act, Inv;
    SlotTaken(b, 0, 0);
    Unfold4(START, Start(0, key, 0.0), SendSucceeds(0, 0.0), PlainStarts(0, key), PlainEnds(0));
  }
}
