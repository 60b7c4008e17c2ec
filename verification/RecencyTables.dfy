/** Two bounded recency tables of the companion: the advert path cache and the
    table of expected acknowledgements. */
module RecencyTables {
  import opened Recency

  type Bytes = seq<int>

  // ----- The path cache -----

  /** What is known of an advertiser: its name, the length of its path as encoded
      and the path it was heard on, and when. */
  datatype Heard = Heard(name: string, pathLen: int, path: Bytes, at: int)

  /** Keyed by the advertiser's prefix. */
  type Path = Entry<Bytes, Heard>

  function Updated(s: seq<Path>, e: Path, limit: int): seq<Path> {
    var r := Remove(s, e.key);
    (if |r| >= limit && r != [] then r[1..] else r) + [e]
  }

  class PathCache {
    const maxEntries: int
    var paths: seq<Path>

    constructor (maxEntries: int)
      ensures this.maxEntries == maxEntries && paths == []
    {
      this.maxEntries, paths := maxEntries, [];
    }

    /** Fails, storing nothing, where it would take from an empty deque. */
    method Update(e: Path) returns (ok: bool)
      requires Distinct(paths)
      modifies this
      ensures !ok <==> maxEntries <= 0 && Remove(old(paths), e.key) == []
      ensures paths == if ok then Updated(old(paths), e, maxEntries) else []
      ensures Distinct(paths)
    {
      hide Remove;
      RemoveDistinct(paths, e.key);
      ghost var r := Remove(paths, e.key);
      RemoveAbsentUnless(paths, e.key);
      for i := 0 to |paths|
        invariant paths == old(paths)
        invariant forall j :: 0 <= j < i ==> paths[j].key != e.key
      {
        if paths[i].key == e.key {
          RemoveAt(paths, i);
          paths := paths[..i] + paths[i + 1..];
          break;
        }
      }
      assert paths == r;
      HasRemove(old(paths), e.key, e.key);
      if |paths| >= maxEntries {
        if paths == [] { return false; }
        paths := paths[1..];
      }
      paths := paths + [e];
      ok := true;
    }
  }

  lemma RemoveAbsentUnless(s: seq<Path>, k: Bytes)
    ensures (forall j :: 0 <= j < |s| ==> s[j].key != k) ==> Remove(s, k) == s
  {
    if forall j :: 0 <= j < |s| ==> s[j].key != k { RemoveAbsent(s, k); }
  }

  /** On distinct keys removing a key deletes one position. */
  lemma {:induction false} RemoveAt(s: seq<Path>, i: nat)
    requires i < |s| && Distinct(s)
    ensures Remove(s, s[i].key) == s[..i] + s[i + 1..]
    decreases |s|
  {
    var k, rest := s[i].key, s[1..];
    assert Distinct(rest);
    if i == 0 {
      assert Remove(s, k) == Remove(rest, k);
      forall j | 0 <= j < |rest| ensures rest[j].key != k { assert rest[j] == s[j + 1]; }
      RemoveAbsentUnless(rest, k);
      assert s[..0] + s[1..] == rest;
    } else {
      assert rest[i - 1] == s[i];
      RemoveAt(rest, i - 1);
      DeleteBehindHead(s, i);
    }
  }

  lemma DeleteBehindHead<T>(s: seq<T>, i: nat)
    requires 1 <= i < |s|
    ensures [s[0]] + (s[1..][..i - 1] + s[1..][i..]) == s[..i] + s[i + 1..]
  {}

  function AfterUpdates(h: seq<Path>, limit: nat): seq<Path> {
    if h == [] then [] else Updated(AfterUpdates(h[..|h| - 1], limit), h[|h| - 1], limit)
  }

  /** Updating the last entries is updating all and keeping the last. */
  lemma UpdatedIsLast(s: seq<Path>, e: Path, limit: nat)
    requires limit > 0 && Distinct(s)
    ensures Updated(LastN(s, limit), e, limit) == LastN(Touch(s, e), limit)
  {
    LastTouched(s, e, limit);
  }

  /** The cache holds exactly the last `limit` distinct prefixes, each with its
      latest path, ordered by latest update. */
  lemma {:induction false} PathCacheEqualsHistory(h: seq<Path>, limit: nat)
    requires limit > 0
    ensures AfterUpdates(h, limit) == LastN(Latest(h), limit)
    decreases |h|
  {
    if h != [] {
      hide Updated, LastN, Touch;
      var before, e := h[..|h| - 1], h[|h| - 1];
      assert h == before + [e];
      PathCacheEqualsHistory(before, limit);
      LatestSnoc(before, e);
      LatestDistinct(before);
      UpdatedIsLast(Latest(before), e, limit);
    }
  }

  // ----- Expected acknowledgements -----

  const MAX_PENDING_ACKS: nat := 64

  /** When an expected CRC was sent, and by which track call. */
  datatype Sent = Sent(at: real, call: nat)

  type Ack = Entry<int, Sent>

  /** The table with its record: how many track calls there were, and which of
      them the confirmations so far belong to. */
  datatype Acks = Acks(table: seq<Ack>, calls: nat, confirmed: seq<nat>)

  function Trimmed(s: seq<Ack>): seq<Ack> {
    if |s| > MAX_PENDING_ACKS then Trimmed(s[1..]) else s
  }

  function Tracked(a: Acks, crc: int, at: real): Acks {
    a.(table := Trimmed(Touch(a.table, Entry(crc, Sent(at, a.calls)))), calls := a.calls + 1)
  }

  function IndexOf(s: seq<Ack>, crc: int): (k: nat)
    ensures k <= |s| && (k < |s| <==> Has(s, crc)) && (k < |s| ==> s[k].key == crc)
  {
    if s == [] then 0
    else HasTail(s, crc); if s[0].key == crc then 0 else 1 + IndexOf(s[1..], crc)
  }

  function Confirmed(a: Acks, crc: int): Acks {
    var k := IndexOf(a.table, crc);
    if k < |a.table| then
      a.(table := Remove(a.table, crc), confirmed := a.confirmed + [a.table[k].value.call])
    else a
  }

  /** To the nearest whole number, a tie to the even one. */
  function Rounded(x: real): (n: int)
    ensures -0.5 <= n as real - x <= 0.5
    ensures n as real - x == 0.5 || n as real - x == -0.5 ==> n % 2 == 0
  {
    var low := x.Floor;
    if x - low as real < 0.5 || (x - low as real == 0.5 && low % 2 == 0) then low else low + 1
  }

  /** The round-trip time in milliseconds, never negative. */
  function TripMs(sent: real, now: real): (ms: int)
    ensures ms >= 0
    ensures sent <= now ==> -0.5 <= ms as real - (now - sent) * 1000.0 <= 0.5
  {
    if Rounded((now - sent) * 1000.0) < 0 then 0 else Rounded((now - sent) * 1000.0)
  }

  class AckTable {
    var table: seq<Ack>
    var calls: nat
    var confirmed: seq<nat>

    function State(): Acks
      reads this
    {
      Acks(table, calls, confirmed)
    }

    constructor ()
      ensures State() == Acks([], 0, [])
    {
      table, calls, confirmed := [], 0, [];
    }

    method Track(crc: int, at: real)
      modifies this
      ensures State() == Tracked(old(State()), crc, at)
    {
      table := Remove(table, crc);
      table := table + [Entry(crc, Sent(at, calls))];
      while |table| > MAX_PENDING_ACKS
        invariant Trimmed(table) == Trimmed(Touch(old(table), Entry(crc, Sent(at, calls))))
        invariant calls == old(calls) && confirmed == old(confirmed)
        decreases |table|
      {
        table := table[1..];
      }
      calls := calls + 1;
    }

    /** Also gives the round-trip time that goes with the confirmation. */
    method TryConfirm(crc: int, now: real) returns (fired: bool, tripMs: int)
      modifies this
      ensures fired <==> Has(old(table), crc)
      ensures State() == Confirmed(old(State()), crc)
      ensures fired ==>
                var k := IndexOf(old(table), crc);
                k < |old(table)| && tripMs == TripMs(old(table)[k].value.at, now)
    {
      var k := IndexOf(table, crc);
      if k == |table| { return false, 0; }
      tripMs := Rounded((now - table[k].value.at) * 1000.0);
      if tripMs < 0 { tripMs := 0; }
      confirmed := confirmed + [table[k].value.call];
      table := Remove(table, crc);
      fired := true;
    }
  }

  datatype Op = Track(crc: int, at: real) | Confirm(crc: int)

  function Next(a: Acks, op: Op): Acks {
    match op
    case Track(crc, at) => Tracked(a, crc, at)
    case Confirm(crc) => Confirmed(a, crc)
  }

  function Run(a: Acks, ops: seq<Op>): Acks
    decreases |ops|
  {
    if ops == [] then a else Run(Next(a, ops[0]), ops[1..])
  }

  predicate InCallOrder(s: seq<Ack>) {
    forall i, j :: 0 <= i < j < |s| ==> s[i].value.call < s[j].value.call
  }

  /** Pending entries are in the order of their track calls; no track call was
      confirmed twice, and none that is still pending was confirmed. */
  predicate Inv(a: Acks) {
    && |a.table| <= 64
    && Distinct(a.table)
    && InCallOrder(a.table)
    && (forall e <- a.table :: e.value.call < a.calls && e.value.call !in a.confirmed)
    && (forall i :: 0 <= i < |a.confirmed| ==> a.confirmed[i] < a.calls)
    && (forall i, j :: 0 <= i < j < |a.confirmed| ==> a.confirmed[i] != a.confirmed[j])
  }

  /** Removal keeps the order of what is left. */
  lemma {:induction false} RemoveKeepsOrder(s: seq<Ack>, crc: int)
    requires InCallOrder(s)
    ensures InCallOrder(Remove(s, crc))
  {
    if s != [] {
      var rest := s[1..];
      assert InCallOrder(rest);
      RemoveKeepsOrder(rest, crc);
      var r := Remove(rest, crc);
      forall j | 0 <= j < |r| ensures s[0].value.call < r[j].value.call {
        RemoveMember(rest, crc, r[j]);
        assert r[j] in rest;
      }
      if s[0].key != crc { assert Remove(s, crc) == [s[0]] + r; } else { assert Remove(s, crc) == r; }
    }
  }

  lemma TouchKeepsOrder(a: Acks, e: Ack)
    requires Inv(a) && e.value.call == a.calls
    ensures InCallOrder(Touch(a.table, e))
    ensures forall x <- Touch(a.table, e) :: x.value.call <= a.calls && x.value.call !in a.confirmed
  {
    RemoveKeepsOrder(a.table, e.key);
    var r := Remove(a.table, e.key);
    forall x | x in r ensures x in a.table { RemoveMember(a.table, e.key, x); }
    forall i | 0 <= i < |r| ensures r[i].value.call < a.calls { assert r[i] in r; }
  }

  lemma TrackKeepsInv(a: Acks, crc: int, at: real)
    requires Inv(a)
    ensures Inv(Tracked(a, crc, at))
    ensures var e := Entry(crc, Sent(at, a.calls));
            Tracked(a, crc, at).table == LastN(Touch(a.table, e), MAX_PENDING_ACKS)
  {
    hide Touch, Has;
    var e := Entry(crc, Sent(at, a.calls));
    TouchDistinct(a.table, e);
    TouchKeepsOrder(a, e);
    var t := Touch(a.table, e);
    if |t| > MAX_PENDING_ACKS {
      assert Trimmed(t) == Trimmed(t[1..]) == t[1..];
      assert InCallOrder(t[1..]) && Distinct(t[1..]);
    }
  }

  lemma ConfirmKeepsInv(a: Acks, crc: int)
    requires Inv(a)
    ensures Inv(Confirmed(a, crc))
  {
    hide Remove;
    var k := IndexOf(a.table, crc);
    if k < |a.table| {
      RemoveDistinct(a.table, crc);
      RemoveKeepsOrder(a.table, crc);
      var r, gone := Remove(a.table, crc), a.table[k];
      assert gone in a.table;
      forall x | x in r ensures x in a.table && x.value.call != gone.value.call {
        RemoveMember(a.table, crc, x);
        var o :| 0 <= o < |a.table| && a.table[o] == x;
        assert o != k;
      }
    }
  }

  /** Over every run each track call is confirmed at most once. */
  lemma {:induction false} AtMostOneConfirmation(a: Acks, ops: seq<Op>)
    requires Inv(a)
    ensures Inv(Run(a, ops))
    decreases |ops|
  {
    if ops != [] {
      match ops[0] {
        case Track(crc, at) => TrackKeepsInv(a, crc, at);
        case Confirm(crc) => ConfirmKeepsInv(a, crc);
      }
      AtMostOneConfirmation(Next(a, ops[0]), ops[1..]);
    }
  }

  /** A CRC leaves the table only when it is acknowledged, or when 64 CRCs
      tracked after it are pending. */
  lemma EvictedOnlyByNewer(a: Acks, op: Op, i: nat)
    requires Inv(a) && i < |a.table| && !Has(Next(a, op).table, a.table[i].key)
    ensures op == Confirm(a.table[i].key) ||
            (op.Track? && |Next(a, op).table| == 64 &&
             forall j :: 0 <= j < |Next(a, op).table| ==> Next(a, op).table[j].value.call > a.table[i].value.call)
  {
    var crc := a.table[i].key;
    match op
    case Confirm(c) =>
      HasRemove(a.table, c, crc);
      assert a.table[i].key == crc;
    case Track(c, at) =>
      var e := Entry(c, Sent(at, a.calls));
      var t, r := Touch(a.table, e), Remove(a.table, c);
      TrackKeepsInv(a, c, at);
      TouchDistinct(a.table, e);
      TouchKeepsOrder(a, e);
      var n := LastN(t, MAX_PENDING_ACKS);
      assert n[|n| - 1] == e;
      HasAppend(r, [e], crc);
      HasRemove(a.table, c, crc);
      assert a.table[i].key == crc;
      assert Has(t, crc) && |t| == MAX_PENDING_ACKS + 1 && n == t[1..];
      HasTail(t, crc);
      RemoveMember(a.table, c, a.table[i]);
      var o :| 0 <= o < |r| && r[o] == a.table[i];
      assert t[o].key == t[0].key;
  }

  // ----- What is pending, from the calls alone -----

  const START := Acks([], 0, [])

  /** An acknowledgement fires for a pending CRC, for the call that tracked it;
      that CRC alone leaves the table. */
  lemma ConfirmTakesOne(a: Acks, crc: int)
    requires Inv(a)
    ensures var r := Next(a, Confirm(crc));
            if Has(a.table, crc) then
              && (exists e <- a.table :: e.key == crc && r.confirmed == a.confirmed + [e.value.call])
              && (forall x :: x in r.table <==> x in a.table && x.key != crc)
            else r == a
  {
    hide Remove;
    var k := IndexOf(a.table, crc);
    if k < |a.table| {
      assert a.table[k] in a.table;
      forall x ensures x in Remove(a.table, crc) <==> x in a.table && x.key != crc { RemoveMember(a.table, crc, x); }
    }
  }

  function Tracks(ops: seq<Op>): nat {
    if ops == [] then 0 else Tracks(ops[..|ops| - 1]) + if ops[|ops| - 1].Track? then 1 else 0
  }

  predicate Touches(op: Op, crc: int) { op.crc == crc }

  /** Call `i` is the last to track or acknowledge the CRC, and tracks it. */
  predicate LastTracked(ops: seq<Op>, i: nat, crc: int, at: real) {
    i < |ops| && ops[i] == Track(crc, at) && forall j :: i < j < |ops| ==> !Touches(ops[j], crc)
  }

  lemma {:induction false} RunSnoc(a: Acks, ops: seq<Op>, op: Op)
    ensures Run(a, ops + [op]) == Next(Run(a, ops), op)
    decreases |ops|
  {
    if ops == [] {
      assert [op][1..] == [] && [] + [op] == [op];
      assert Run(Next(a, op), []) == Next(a, op);
    } else {
      assert (ops + [op])[0] == ops[0] && (ops + [op])[1..] == ops[1..] + [op];
      RunSnoc(Next(a, ops[0]), ops[1..], op);
    }
  }

  /** What a step leaves of the entries that were there, and what it adds. */
  lemma EntryEffect(a: Acks, op: Op, e: Ack)
    requires Inv(a)
    ensures e in Next(a, op).table ==>
              (e in a.table && !Touches(op, e.key)) || (op.Track? && e == Entry(op.crc, Sent(op.at, a.calls)))
    ensures e in a.table && !Touches(op, e.key) && Has(Next(a, op).table, e.key) ==> e in Next(a, op).table
  {
    match op
    case Confirm(crc) => RemoveMember(a.table, crc, e);
    case Track(crc, at) =>
      TrackKeepsInv(a, crc, at);
      var n := Entry(crc, Sent(at, a.calls));
      var t := Touch(a.table, n);
      RemoveMember(a.table, crc, e);
      TouchDistinct(a.table, n);
      LastMember(t, 64, e);
  }

  lemma LastMember(t: seq<Ack>, limit: nat, e: Ack)
    requires Distinct(t)
    ensures e in LastN(t, limit) ==> e in t
    ensures e in t && Has(LastN(t, limit), e.key) ==> e in LastN(t, limit)
  {
    var n := LastN(t, limit);
    if e in t && Has(n, e.key) {
      var i :| 0 <= i < |t| && t[i] == e;
      var j :| 0 <= j < |n| && n[j].key == e.key;
      assert n[j] == t[|t| - |n| + j];
    }
  }

  /** In every run a pending CRC was tracked, and neither tracked nor acknowledged
      again since. */
  lemma {:induction false} PendingWasTracked(ops: seq<Op>, e: Ack)
    requires e in Run(START, ops).table
    ensures exists i :: LastTracked(ops, i, e.key, e.value.at)
    decreases |ops|
  {
    if ops != [] {
      hide Next, Inv;
      var before, op := ops[..|ops| - 1], ops[|ops| - 1];
      assert ops == before + [op];
      RunSnoc(START, before, op);
      StartOk();
      AtMostOneConfirmation(START, before);
      EntryEffect(Run(START, before), op, e);
      if e in Run(START, before).table && !Touches(op, e.key) {
        PendingWasTracked(before, e);
        var i :| LastTracked(before, i, e.key, e.value.at);
        assert LastTracked(ops, i, e.key, e.value.at);
      } else {
        assert LastTracked(ops, |before|, e.key, e.value.at);
      }
    }
  }

  lemma StartOk()
    ensures Inv(START)
  {}

  lemma {:induction false} CallsAreTracks(ops: seq<Op>)
    ensures Run(START, ops).calls == Tracks(ops)
    decreases |ops|
  {
    if ops != [] {
      var before, op := ops[..|ops| - 1], ops[|ops| - 1];
      assert ops == before + [op];
      RunSnoc(START, before, op);
      CallsAreTracks(before);
    }
  }

  lemma {:induction false} CallsSpread(s: seq<Ack>, n: nat, k: nat)
    requires InCallOrder(s) && k < |s| && forall j :: 0 <= j < |s| ==> s[j].value.call > n
    ensures s[k].value.call > n + k
    decreases k
  {
    if k > 0 { CallsSpread(s, n, k - 1); }
  }

  lemma StillPending(a: Acks, op: Op, e: Ack)
    requires Inv(a) && e in a.table && !Touches(op, e.key) && Next(a, op).calls <= e.value.call + 64
    ensures e in Next(a, op).table
  {
    hide Inv;
    EntryEffect(a, op, e);
    var r := Next(a, op);
    var i :| 0 <= i < |a.table| && a.table[i] == e;
    if !Has(r.table, e.key) {
      EvictedOnlyByNewer(a, op, i);
      NextKeepsInv(a, op);
      hide Next;
      InvParts(r);
      CallsSpread(r.table, e.value.call, 63);
    }
  }

  lemma NextKeepsInv(a: Acks, op: Op)
    requires Inv(a)
    ensures Inv(Next(a, op))
  {
    match op
    case Track(crc, at) => TrackKeepsInv(a, crc, at);
    case Confirm(crc) => ConfirmKeepsInv(a, crc);
  }

  lemma InvParts(a: Acks)
    requires Inv(a)
    ensures InCallOrder(a.table) && forall e <- a.table :: e.value.call < a.calls
  {}

  /** In every run a CRC that was tracked, and neither tracked nor acknowledged
      again since, is pending with the time of that call unless 64 later calls
      tracked others. */
  lemma {:induction false} TrackedIsPending(ops: seq<Op>, i: nat, crc: int, at: real)
    requires LastTracked(ops, i, crc, at) && Tracks(ops) <= Tracks(ops[..i]) + 64
    ensures Entry(crc, Sent(at, Tracks(ops[..i]))) in Run(START, ops).table
    decreases |ops|
  {
    hide Next, Inv;
    var before, op := ops[..|ops| - 1], ops[|ops| - 1];
    assert ops == before + [op];
    RunSnoc(START, before, op);
    StartOk();
    AtMostOneConfirmation(START, before);
    CallsAreTracks(before);
    CallsAreTracks(ops);
    if i == |before| {
      assert ops[..i] == before;
      NewestIsPending(Run(START, before), crc, at);
    } else {
      assert before[..i] == ops[..i];
      assert LastTracked(before, i, crc, at);
      TrackedIsPending(before, i, crc, at);
      StillPending(Run(START, before), op, Entry(crc, Sent(at, Tracks(ops[..i]))));
    }
  }

  lemma NewestIsPending(a: Acks, crc: int, at: real)
    requires Inv(a)
    ensures Entry(crc, Sent(at, a.calls)) in Next(a, Track(crc, at)).table
  {
    TrackKeepsInv(a, crc, at);
    var e := Entry(crc, Sent(at, a.calls));
    var n := LastN(Touch(a.table, e), 64);
    assert n[|n| - 1] == e;
  }
}
