/** The companion's offline message queue: bounded, and at capacity it gives up
    the oldest channel message but never a direct one. */
module MessageQueue {
  import opened Options
  import opened Sequences

  /** `id` is the identity of the queued object. */
  datatype Message = Message(id: nat, isChannel: bool, text: string)

  function OldestChannel(q: seq<Message>): (k: nat)
    ensures k <= |q|
    ensures forall i :: 0 <= i < k ==> !q[i].isChannel
    ensures k < |q| ==> q[k].isChannel
  {
    if q == [] || q[0].isChannel then 0 else 1 + OldestChannel(q[1..])
  }

  function IndexOf(q: seq<Message>, id: nat): (k: nat)
    ensures k <= |q|
    ensures forall i :: 0 <= i < k ==> q[i].id != id
    ensures k < |q| ==> q[k].id == id
  {
    if q == [] || q[0].id == id then 0 else 1 + IndexOf(q[1..], id)
  }

  /** A push is refused exactly when storage is disabled or the queue is full
      of direct messages. */
  predicate Refuses(q: seq<Message>, limit: int) {
    limit <= 0 || (|q| >= limit && forall i :: 0 <= i < |q| ==> !q[i].isChannel)
  }

  // ----- Every run -----

  datatype Op = Push(m: Message) | Pop | PopLast | RemoveId(id: nat) | Clear

  /** A queue with its record: `tags[i]` says which accepted push `queue[i]` is;
      accepted pushes end up taken by the consumer or evicted. */
  datatype Ledger = Ledger(queue: seq<Message>, tags: seq<nat>, accepted: seq<Message>,
                           taken: set<nat>, evicted: set<nat>)

  const START := Ledger([], [], [], {}, {})

  /** The consumer takes the message at a position, if there is one. */
  function Taken(l: Ledger, k: nat): Ledger
    requires |l.tags| == |l.queue|
  {
    if k < |l.queue| then
      l.(queue := Without(l.queue, k), tags := Without(l.tags, k), taken := l.taken + {l.tags[k]})
    else l
  }

  function Appended(l: Ledger, m: Message): Ledger {
    l.(queue := l.queue + [m], tags := l.tags + [|l.accepted|], accepted := l.accepted + [m])
  }

  function Evicted(l: Ledger): Ledger
    requires |l.tags| == |l.queue| && OldestChannel(l.queue) < |l.queue|
  {
    var k := OldestChannel(l.queue);
    l.(queue := Without(l.queue, k), tags := Without(l.tags, k), evicted := l.evicted + {l.tags[k]})
  }

  function Next(l: Ledger, op: Op, limit: int): Ledger
    requires |l.tags| == |l.queue|
  {
    match op
    case Push(m) =>
      if Refuses(l.queue, limit) then l
      else if |l.queue| >= limit then Appended(Evicted(l), m)
      else Appended(l, m)
    case Pop => Taken(l, 0)
    case PopLast => if l.queue == [] then l else Taken(l, |l.queue| - 1)
    case RemoveId(id) => Taken(l, IndexOf(l.queue, id))
    case Clear => l.(queue := [], tags := [], taken := l.taken + set t | t in l.tags)
  }

  function Run(l: Ledger, ops: seq<Op>, limit: int): Ledger
    requires Inv(l, limit)
    decreases |ops|
  {
    if ops == [] then l
    else StepKeepsInv(l, ops[0], limit); Run(Next(l, ops[0], limit), ops[1..], limit)
  }

  predicate Increasing(tags: seq<nat>) {
    forall i, j :: 0 <= i < j < |tags| ==> tags[i] < tags[j]
  }

  /** The queue is a subsequence of the accepted pushes, in push order and
      within the limit; every accepted push is queued, taken or evicted, and
      only one of these; and only channel messages are evicted. */
  predicate Inv(l: Ledger, limit: int) {
    && |l.tags| == |l.queue|
    && (l.queue != [] ==> |l.queue| <= limit)
    && Increasing(l.tags)
    && (forall i :: 0 <= i < |l.tags| ==> l.tags[i] < |l.accepted| && l.accepted[l.tags[i]] == l.queue[i])
    && (forall n: nat :: n < |l.accepted| ==> (n in l.tags || n in l.taken || n in l.evicted))
    && (forall n <- l.taken :: n < |l.accepted| && n !in l.evicted && n !in l.tags)
    && (forall n <- l.evicted :: n < |l.accepted| && n !in l.tags && l.accepted[n].isChannel)
  }

  lemma WithoutTag(tags: seq<nat>, k: nat)
    requires Increasing(tags) && k < |tags|
    ensures Increasing(Without(tags, k)) && tags[k] !in Without(tags, k)
    ensures forall n :: n in Without(tags, k) <==> n in tags && n != tags[k]
  {
    var d := Without(tags, k);
    forall i | 0 <= i < |d| ensures d[i] in tags && d[i] != tags[k] {
      var o := if i < k then i else i + 1;
      assert d[i] == tags[o];
    }
    forall n | n in tags && n != tags[k] ensures n in d {
      var o :| 0 <= o < |tags| && tags[o] == n;
      assert d[if o < k then o else o - 1] == n;
    }
  }

  lemma TakenKeepsInv(l: Ledger, k: nat, limit: int)
    requires Inv(l, limit)
    ensures Inv(Taken(l, k), limit)
  {
    if k < |l.queue| {
      WithoutTag(l.tags, k);
      var r := Taken(l, k);
      forall i | 0 <= i < |r.tags| ensures r.tags[i] < |l.accepted| && l.accepted[r.tags[i]] == r.queue[i] {
        var o := if i < k then i else i + 1;
        assert r.tags[i] == l.tags[o] && r.queue[i] == l.queue[o];
      }
      assert l.tags[k] in l.tags;
    }
  }

  lemma EvictedKeepsInv(l: Ledger, limit: int)
    requires Inv(l, limit) && OldestChannel(l.queue) < |l.queue|
    ensures Inv(Evicted(l), limit)
  {
    var k := OldestChannel(l.queue);
    WithoutTag(l.tags, k);
    var r := Evicted(l);
    forall i | 0 <= i < |r.tags| ensures r.tags[i] < |l.accepted| && l.accepted[r.tags[i]] == r.queue[i] {
      var o := if i < k then i else i + 1;
      assert r.tags[i] == l.tags[o] && r.queue[i] == l.queue[o];
    }
    assert l.tags[k] in l.tags;
  }

  lemma AppendedKeepsInv(l: Ledger, m: Message, limit: int)
    requires Inv(l, limit) && |l.queue| < limit
    ensures Inv(Appended(l, m), limit)
  {
    var r := Appended(l, m);
    forall n: nat | n < |r.accepted| ensures n in r.tags || n in r.taken || n in r.evicted {
      if n == |l.accepted| { assert r.tags[|l.tags|] == n; }
    }
  }

  lemma StepKeepsInv(l: Ledger, op: Op, limit: int)
    requires Inv(l, limit)
    ensures Inv(Next(l, op, limit), limit)
  {
    match op
    case Push(m) =>
      if !Refuses(l.queue, limit) {
        if |l.queue| >= limit {
          EvictedKeepsInv(l, limit);
          AppendedKeepsInv(Evicted(l), m, limit);
        } else {
          AppendedKeepsInv(l, m, limit);
        }
      }
    case Pop => TakenKeepsInv(l, 0, limit);
    case PopLast => if l.queue != [] { TakenKeepsInv(l, |l.queue| - 1, limit); }
    case RemoveId(id) => TakenKeepsInv(l, IndexOf(l.queue, id), limit);
    case Clear =>
  }

  lemma {:induction false} RunKeepsInv(l: Ledger, ops: seq<Op>, limit: int)
    requires Inv(l, limit)
    ensures Inv(Run(l, ops, limit), limit)
    decreases |ops|
  {
    if ops != [] {
      StepKeepsInv(l, ops[0], limit);
      RunKeepsInv(Next(l, ops[0], limit), ops[1..], limit);
    }
  }

  /** In every run an accepted direct message is still queued unless the
      consumer took it. */
  lemma DirectMessagesAreKept(ops: seq<Op>, limit: int, n: nat)
    requires n < |Run(START, ops, limit).accepted|
    requires !Run(START, ops, limit).accepted[n].isChannel
    ensures var l := Run(START, ops, limit); n in l.tags <==> n !in l.taken
  {
    RunKeepsInv(START, ops, limit);
  }

  // ----- What a step moves -----

  /** An evicted message was pushed before every channel message still queued. */
  predicate OldestGoFirst(l: Ledger) {
    forall n <- l.evicted, t <- l.tags :: t < |l.accepted| && l.accepted[t].isChannel ==> n < t
  }

  lemma EvictedKeepsOldest(l: Ledger, limit: int)
    requires Inv(l, limit) && OldestGoFirst(l) && OldestChannel(l.queue) < |l.queue|
    ensures OldestGoFirst(Evicted(l))
  {
    var k := OldestChannel(l.queue);
    WithoutTag(l.tags, k);
    forall t | t in l.tags && t != l.tags[k] && l.accepted[t].isChannel ensures l.tags[k] < t {
      var i :| 0 <= i < |l.tags| && l.tags[i] == t;
      assert l.accepted[t] == l.queue[i];
    }
  }

  lemma AppendedKeepsOldest(l: Ledger, m: Message, limit: int)
    requires Inv(l, limit) && OldestGoFirst(l)
    ensures OldestGoFirst(Appended(l, m))
  {}

  lemma StepKeepsOldest(l: Ledger, op: Op, limit: int)
    requires Inv(l, limit) && OldestGoFirst(l)
    ensures OldestGoFirst(Next(l, op, limit))
  {
    match op
    case Push(m) =>
      if !Refuses(l.queue, limit) {
        if |l.queue| >= limit {
          EvictedKeepsInv(l, limit);
          EvictedKeepsOldest(l, limit);
          AppendedKeepsOldest(Evicted(l), m, limit);
        } else {
          AppendedKeepsOldest(l, m, limit);
        }
      }
    case Pop => if l.tags != [] { WithoutTag(l.tags, 0); }
    case PopLast => if l.tags != [] { WithoutTag(l.tags, |l.tags| - 1); }
    case RemoveId(id) => if IndexOf(l.queue, id) < |l.queue| { WithoutTag(l.tags, IndexOf(l.queue, id)); }
    case Clear =>
  }

  /** In every run the messages evicted are the oldest channel messages: every
      channel message that is queued was pushed later. */
  lemma {:induction false} EvictedAreOldest(l: Ledger, ops: seq<Op>, limit: int)
    requires Inv(l, limit) && OldestGoFirst(l)
    ensures Inv(Run(l, ops, limit), limit) && OldestGoFirst(Run(l, ops, limit))
    decreases |ops|
  {
    hide OldestGoFirst;
    if ops != [] {
      StepKeepsInv(l, ops[0], limit);
      StepKeepsOldest(l, ops[0], limit);
      EvictedAreOldest(Next(l, ops[0], limit), ops[1..], limit);
    }
  }

  /** A push that is not refused is queued behind all others; in a full queue it
      costs exactly one channel message, and otherwise none. */
  lemma PushIsQueued(l: Ledger, m: Message, limit: int)
    requires Inv(l, limit)
    ensures var r := Next(l, Push(m), limit);
            if Refuses(l.queue, limit) then r == l
            else
              && r.accepted == l.accepted + [m] && r.taken == l.taken
              && r.tags != [] && r.tags[|r.tags| - 1] == |l.accepted|
              && if |l.queue| < limit then r.tags == l.tags + [|l.accepted|] && r.evicted == l.evicted
                 else exists n <- l.tags ::
                   l.accepted[n].isChannel && r.evicted == l.evicted + {n} &&
                   forall t :: t in r.tags <==> (t in l.tags && t != n) || t == |l.accepted|
  {
    if !Refuses(l.queue, limit) && |l.queue| >= limit {
      var k := OldestChannel(l.queue);
      WithoutTag(l.tags, k);
      var n, r := l.tags[k], Next(l, Push(m), limit);
      assert n in l.tags && l.accepted[n] == l.queue[k];
      assert r.tags == Without(l.tags, k) + [|l.accepted|];
    }
  }

  /** The consumer takes the oldest message, the newest one, the oldest with an
      identity, or all; nothing else leaves the queue, and nothing joins it. */
  lemma ConsumerTakes(l: Ledger, op: Op, limit: int)
    requires Inv(l, limit) && !op.Push?
    ensures var r := Next(l, op, limit);
            && r.accepted == l.accepted && r.evicted == l.evicted
            && (forall t :: t in l.tags <==> t in r.tags || (t in r.taken && t !in l.taken))
            && (op.Clear? ==> r.tags == [])
            && (op.Pop? && l.tags != [] ==>
                  |r.tags| == |l.tags| - 1 && forall t <- l.tags, u <- r.tags :: t in r.tags || t < u)
            && (op.PopLast? && l.tags != [] ==>
                  |r.tags| == |l.tags| - 1 && forall t <- l.tags, u <- r.tags :: t in r.tags || t > u)
            && (op.RemoveId? ==>
                  if exists t <- l.tags :: l.accepted[t].id == op.id then
                    && |r.tags| == |l.tags| - 1
                    && forall t <- l.tags :: t in r.tags ||
                         (l.accepted[t].id == op.id && forall u <- r.tags :: l.accepted[u].id == op.id ==> t < u)
                  else r == l)
  {
    match op
    case Pop => if l.tags != [] { TakenMoves(l, 0, limit); }
    case PopLast => if l.tags != [] { TakenMoves(l, |l.tags| - 1, limit); }
    case RemoveId(id) =>
      var k := IndexOf(l.queue, id);
      if k < |l.queue| {
        TakenMoves(l, k, limit);
        assert l.tags[k] in l.tags && l.accepted[l.tags[k]].id == id;
      } else {
        forall t | t in l.tags ensures l.accepted[t].id != id {
          var i :| 0 <= i < |l.tags| && l.tags[i] == t;
          assert l.queue[i].id != id;
        }
      }
    case Clear =>
  }

  lemma TakenMoves(l: Ledger, k: nat, limit: int)
    requires Inv(l, limit) && k < |l.queue|
    ensures var r := Taken(l, k);
            && |r.tags| == |l.tags| - 1 && r.taken == l.taken + {l.tags[k]} && l.tags[k] !in l.taken
            && (forall t :: t in r.tags <==> t in l.tags && t != l.tags[k])
            && (k == 0 ==> forall u <- r.tags :: l.tags[k] < u)
            && (k == |l.tags| - 1 ==> forall u <- r.tags :: l.tags[k] > u)
            && (k == IndexOf(l.queue, l.queue[k].id) ==>
                  forall u <- r.tags :: l.accepted[u].id == l.queue[k].id ==> l.tags[k] < u)
  {
    WithoutTag(l.tags, k);
    assert l.tags[k] in l.tags;
    var r := Taken(l, k);
    forall u | u in r.tags ensures (k == 0 ==> l.tags[k] < u) && (k == |l.tags| - 1 ==> l.tags[k] > u)
      && (k == IndexOf(l.queue, l.queue[k].id) ==> l.accepted[u].id == l.queue[k].id ==> l.tags[k] < u)
    {
      var i :| 0 <= i < |l.tags| && l.tags[i] == u;
      assert l.accepted[u] == l.queue[i];
    }
  }

  // ----- The queue -----

  class OfflineQueue {
    const maxSize: int
    var queue: seq<Message>
    ghost var ledger: Ledger

    ghost predicate Valid()
      reads this
    {
      queue == ledger.queue && Inv(ledger, maxSize)
    }

    constructor (maxSize: int)
      ensures Valid() && this.maxSize == maxSize && ledger == START
    {
      this.maxSize, queue, ledger := maxSize, [], START;
    }

    method Push(m: Message) returns (ok: bool)
      requires Valid()
      modifies this
      ensures Valid() && ledger == Next(old(ledger), Op.Push(m), maxSize)
      ensures ok <==> !Refuses(old(queue), maxSize)
    {
      StepKeepsInv(ledger, Op.Push(m), maxSize);
      ledger := Next(ledger, Op.Push(m), maxSize);
      if maxSize <= 0 { return false; }
      if |queue| >= maxSize {
        var found := false;
        for i := 0 to |queue|
          invariant queue == old(queue) && !found && ledger == Next(old(ledger), Op.Push(m), maxSize)
          invariant forall j :: 0 <= j < i ==> !queue[j].isChannel
        {
          if queue[i].isChannel {
            assert i == OldestChannel(queue);
            queue := queue[..i] + queue[i + 1..];
            found := true;
            break;
          }
        }
        if !found { return false; }
      }
      queue := queue + [m];
      ok := true;
    }

    method Pop() returns (r: Option<Message>)
      requires Valid()
      modifies this
      ensures Valid() && ledger == Next(old(ledger), Op.Pop, maxSize)
      ensures r == if old(queue) == [] then None else Some(old(queue)[0])
    {
      StepKeepsInv(ledger, Op.Pop, maxSize);
      ledger := Next(ledger, Op.Pop, maxSize);
      r := None;
      if |queue| > 0 {
        r := Some(queue[0]);
        queue := queue[1..];
      }
    }

    method PopLast() returns (r: Option<Message>)
      requires Valid()
      modifies this
      ensures Valid() && ledger == Next(old(ledger), Op.PopLast, maxSize)
      ensures r == if old(queue) == [] then None else Some(old(queue)[|old(queue)| - 1])
    {
      StepKeepsInv(ledger, Op.PopLast, maxSize);
      ledger := Next(ledger, Op.PopLast, maxSize);
      r := None;
      if |queue| > 0 {
        r := Some(queue[|queue| - 1]);
        queue := queue[..|queue| - 1];
      }
    }

    method RemoveMessage(id: nat) returns (ok: bool)
      requires Valid()
      modifies this
      ensures Valid() && ledger == Next(old(ledger), RemoveId(id), maxSize)
      ensures ok <==> exists m :: m in old(queue) && m.id == id
    {
      StepKeepsInv(ledger, RemoveId(id), maxSize);
      ledger := Next(ledger, RemoveId(id), maxSize);
      for i := 0 to |queue|
        invariant queue == old(queue) && ledger == Next(old(ledger), RemoveId(id), maxSize)
        invariant forall j :: 0 <= j < i ==> queue[j].id != id
      {
        if queue[i].id == id {
          assert i == IndexOf(queue, id);
          queue := queue[..i] + queue[i + 1..];
          assert old(queue)[i] in old(queue);
          return true;
        }
      }
      return false;
    }

    method Clear()
      requires Valid()
      modifies this
      ensures Valid() && ledger == Next(old(ledger), Op.Clear, maxSize)
    {
      StepKeepsInv(ledger, Op.Clear, maxSize);
      ledger := Next(ledger, Op.Clear, maxSize);
      queue := [];
    }
  }
}
